/** Bootstrapping a collection under index lifecycle management: the rollover alias with its one write index, and the
    migration from the legacy index. */
module IlmBootstrap {
  import opened Wrappers
  import opened Strings
  import opened Elastic

  // ---------------------------------------------------------------- the latest index

  /** The pattern of the bootstrap, `{name}-0*`, and the names it knows. */
  function Prefix(name: string): string { name + "-0" }
  function Hot(name: string): Name { name + "_hot" }
  function Initial(name: string): Name { name + "-000001" }

  ghost predicate IsLatest(names: set<Name>, latest: Name) {
    latest in names && forall n :: n in names ==> Le(n, latest)
  }

  /** `sorted(names)[-1]`. */
  method Latest(names: set<Name>) returns (latest: Name)
    requires names != {}
    ensures IsLatest(names, latest)
  {
    latest :| latest in names;
    LeTotal(latest, latest);
    var rest := names - {latest};
    while rest != {}
      invariant latest in names && rest <= names
      invariant forall n :: n in names && n !in rest ==> Le(n, latest)
      decreases |rest|
    {
      var n :| n in rest;
      LeTotal(n, latest);
      LeTotal(n, n);
      if !Le(n, latest) {
        forall m | m in names && m !in rest ensures Le(m, n) {
          LeTransitive(m, latest, n);
        }
        latest := n;
      }
      rest := rest - {n};
    }
  }

  lemma LatestUnique(names: set<Name>, a: Name, b: Name)
    requires IsLatest(names, a) && IsLatest(names, b)
    ensures a == b
  {
    LeTotal(a, b);
  }

  /** A rollover index: the collection's name, a dash and six digits. */
  predicate Rollover(name: string, n: Name) {
    |n| == |name| + 7 && n[..|name| + 1] == name + "-" && forall k :: |name| < k < |n| ==> '0' <= n[k] <= '9'
  }

  lemma {:induction false} LongerIsGreater(a: string, s: string)
    requires s != ""
    ensures Lt(a, a + s)
  {
    if a != "" {
      LongerIsGreater(a[1..], s);
      assert (a + s)[1..] == a[1..] + s;
    }
    assert |a + s| > |a|;
  }

  lemma {:induction false} SuffixKeepsOrder(a: string, b: string, s: string)
    requires |a| == |b| && Lt(a, b)
    ensures Lt(a + s, b)
  {
    assert a + s == [a[0]] + (a[1..] + s);
    assert a == [a[0]] + a[1..] && b == [b[0]] + b[1..];
    assert (a + s)[1..] == a[1..] + s;
    if a[0] == b[0] {
      SuffixKeepsOrder(a[1..], b[1..], s);
    }
    assert s == "" ==> a + s == a;
  }

  lemma RolloverIsNoTarget(name: string, n: Name)
    requires Rollover(name, n)
    ensures !Temporary(n)
  {
    assert |n| >= |REINDEX| ==> n[|n| - |REINDEX|..][|REINDEX| - 1] == n[|n| - 1];
  }

  /** The names the pattern matches: rollover indexes, and reindex targets of rollover indexes, still there or not. */
  ghost predicate RolloversAndTargets(name: string, names: set<Name>) {
    && (forall n :: n in names && !Temporary(n) ==> Rollover(name, n))
    && (forall n :: n in names && Temporary(n) ==> exists b :: Rollover(name, b) && n == Temp(b))
  }

  /** A target is left over whose index, itself there or deleted, no rollover index is newer than. */
  ghost predicate TargetAhead(name: string, names: set<Name>) {
    exists b :: Rollover(name, b) && Temp(b) in names && NoneNewer(names, b)
  }

  ghost predicate NoneNewer(names: set<Name>, b: Name) {
    forall n :: n in names && !Temporary(n) ==> Le(n, b)
  }

  lemma OlderThanTarget(name: string, n: Name, b: Name)
    requires Rollover(name, n) && Rollover(name, b)
    ensures Le(n, Temp(b)) <==> Le(n, b)
  {
    LeTotal(n, b);
    LongerIsGreater(b, REINDEX);
    if Le(n, b) {
      LeTransitive(n, b, Temp(b));
    } else {
      SuffixKeepsOrder(b, n, REINDEX);
      LeTotal(n, Temp(b));
    }
  }

  /** The index taken for the latest is a leftover reindex target exactly when no rollover index is newer than the one
      some target belongs to: the newest index has a target, or a reindex stopped after deleting it. */
  lemma LatestIsTarget(name: string, names: set<Name>, latest: Name)
    requires IsLatest(names, latest) && RolloversAndTargets(name, names)
    ensures Temporary(latest) <==> TargetAhead(name, names)
  {
    if Temporary(latest) {
      var b :| Rollover(name, b) && latest == Temp(b);
      forall n | n in names && !Temporary(n) ensures Le(n, b) {
        OlderThanTarget(name, n, b);
      }
      assert NoneNewer(names, b);
    }
    if TargetAhead(name, names) {
      var b :| Rollover(name, b) && Temp(b) in names && NoneNewer(names, b);
      TempFacts(b);
      if !Temporary(latest) {
        OlderThanTarget(name, latest, b);
        LeTotal(latest, Temp(b));
      }
    }
  }

  lemma NamesDiffer(name: string)
    ensures Hot(name) != Initial(name) && !(Prefix(name) <= Hot(name)) && Prefix(name) <= Initial(name)
  {
    assert Hot(name)[|name|] == '_' && Initial(name)[|name|] == '-' && Prefix(name)[|name|] == '-';
    assert Initial(name) == Prefix(name) + "00001";
  }

  // ---------------------------------------------------------------- the write index

  /** The alias has exactly one write index, `latest`, and no legacy member. */
  ghost predicate Bootstrapped(m: Indexes, alias: string, hot: Name, latest: Name) {
    && latest in m && alias in m[latest].aliases && m[latest].aliases[alias].isWriteIndex
    && (forall x :: x in m && alias in m[x].aliases && m[x].aliases[alias].isWriteIndex ==> x == latest)
    && (hot in m ==> alias !in m[hot].aliases)
  }

  /** Nothing else about the alias, or about any other alias, or about any index but what writers stored, is
      different. */
  ghost predicate OtherwiseSame(a: Indexes, b: Indexes, alias: string, hot: Name, latest: Name) {
    && a.Keys == b.Keys
    && forall x :: x in a ==>
      && b[x] == a[x].(aliases := b[x].aliases, docs := b[x].docs)
      && b[x].aliases - {alias} == a[x].aliases - {alias}
      && (x != hot && x != latest ==> (alias in b[x].aliases <==> alias in a[x].aliases))
      && (alias in a[x].aliases && alias in b[x].aliases ==>
           b[x].aliases[alias].settings == a[x].aliases[alias].settings)
  }

  /** One index after the repair of its alias. */
  function Repair(aliases: Aliases, alias: string, isHot: bool, isLatest: bool): Aliases {
    if alias !in aliases then (if isLatest then aliases[alias := Alias(true, "")] else aliases)
    else if isHot then aliases - {alias}
    else aliases[alias := aliases[alias].(isWriteIndex := isLatest)]
  }

  function Repaired(m: Indexes, alias: string, hot: Name, latest: Name, part: set<Name>): Indexes {
    map x | x in m :: if x in part then m[x].(aliases := Repair(m[x].aliases, alias, x == hot, x == latest)) else m[x]
  }

  lemma RepairBootstraps(m: Indexes, alias: string, hot: Name, latest: Name)
    requires latest in m && hot != latest
    ensures var after := Repaired(m, alias, hot, latest, m.Keys);
            Bootstrapped(after, alias, hot, latest) && OtherwiseSame(m, after, alias, hot, latest)
  {
  }

  lemma RepairedMore(m: Indexes, alias: string, hot: Name, latest: Name, part: set<Name>, x: Name)
    requires x in m && x !in part
    ensures Repaired(m, alias, hot, latest, part + {x})
         == Repaired(m, alias, hot, latest, part)
              [x := m[x].(aliases := Repair(m[x].aliases, alias, x == hot, x == latest))]
    ensures Repaired(m, alias, hot, latest, part)[x] == m[x]
  {
  }

  lemma OthersNeedNoRepair(m: Indexes, alias: string, hot: Name, latest: Name, part: set<Name>)
    requires forall x :: x in m && x !in part ==> alias !in m[x].aliases && x != latest
    ensures Repaired(m, alias, hot, latest, part) == Repaired(m, alias, hot, latest, m.Keys)
  {
  }

  lemma ActOneMore(m: Indexes, actions: seq<Action>, action: Action)
    ensures ActAll(m, actions + [action])
            == (var before := ActAll(m, actions); if before.None? then None else Act(before.value, action))
  {
    assert (actions + [action])[..|actions|] == actions;
  }

  /** The action for one carrier of the alias that is not the latest index, if it needs one. */
  function CarrierAction(alias: string, hot: Name, latest: Name, x: Name, data: Alias): seq<Action> {
    if x == hot then [Remove(x, alias)]
    else if x != latest && data.isWriteIndex then [Add(x, alias, data.(isWriteIndex := false))]
    else []
  }

  lemma CarrierActionRepairs(m: Indexes, alias: string, hot: Name, latest: Name, part: set<Name>, x: Name,
                             actions: seq<Action>)
    requires x in m && alias in m[x].aliases && x !in part && x != latest
    requires ActAll(m, actions) == Some(Repaired(m, alias, hot, latest, part))
    ensures ActAll(m, actions + CarrierAction(alias, hot, latest, x, m[x].aliases[alias]))
         == Some(Repaired(m, alias, hot, latest, part + {x}))
  {
    var before := Repaired(m, alias, hot, latest, part);
    RepairedMore(m, alias, hot, latest, part, x);
    var step := CarrierAction(alias, hot, latest, x, m[x].aliases[alias]);
    if step == [] {
      assert actions + step == actions;
      assert m[x].aliases[alias := m[x].aliases[alias]] == m[x].aliases;
      assert before[x := m[x]] == before;
    } else {
      ActOneMore(m, actions, step[0]);
    }
  }

  /** `actions` repair exactly the indexes of `part`, and are none when none of those needs it. */
  ghost predicate Repairs(m: Indexes, alias: string, hot: Name, latest: Name, part: set<Name>, actions: seq<Action>) {
    && ActAll(m, actions) == Some(Repaired(m, alias, hot, latest, part))
    && (actions == [] <==> forall x :: x in part && x in m && alias in m[x].aliases ==>
         x != hot && !m[x].aliases[alias].isWriteIndex)
  }

  lemma RepairsNone(m: Indexes, alias: string, hot: Name, latest: Name)
    ensures Repairs(m, alias, hot, latest, {}, [])
  {
    assert Repaired(m, alias, hot, latest, {}) == m;
  }

  lemma RepairsOneMore(m: Indexes, alias: string, hot: Name, latest: Name, part: set<Name>, x: Name,
                       actions: seq<Action>)
    requires x in m && alias in m[x].aliases && x !in part && x != latest
    requires Repairs(m, alias, hot, latest, part, actions)
    ensures Repairs(m, alias, hot, latest, part + {x}, actions
            + CarrierAction(alias, hot, latest, x, m[x].aliases[alias]))
  {
    CarrierActionRepairs(m, alias, hot, latest, part, x, actions);
  }

  /** The actions for the carriers of the alias other than the latest index. */
  method CarrierActions(carriers: map<Name, Alias>, alias: string, hot: Name, latest: Name, ghost m: Indexes)
    returns (actions: seq<Action>)
    requires carriers == Carriers(m, alias)
    ensures Repairs(m, alias, hot, latest, carriers.Keys - {latest}, actions)
  {
    actions := [];
    var rest := carriers.Keys - {latest};
    ghost var others := rest;
    RepairsNone(m, alias, hot, latest);
    assert others - rest == {};
    while rest != {}
      invariant rest <= others && Repairs(m, alias, hot, latest, others - rest, actions)
      decreases |rest|
    {
      var x :| x in rest;
      RepairsOneMore(m, alias, hot, latest, others - rest, x, actions);
      OneLess(others, rest, x);
      actions := actions + CarrierAction(alias, hot, latest, x, carriers[x]);
      rest := rest - {x};
    }
    assert others - rest == others;
  }

  lemma OneLess(all: set<Name>, rest: set<Name>, x: Name)
    requires rest <= all && x in rest
    ensures all - (rest - {x}) == (all - rest) + {x}
  {
  }

  lemma LatestActionRepairs(m: Indexes, alias: string, hot: Name, latest: Name, part: set<Name>, actions: seq<Action>)
    requires latest in m && latest !in part && hot != latest
    requires forall x :: x in m && x !in part + {latest} ==> alias !in m[x].aliases
    requires ActAll(m, actions) == Some(Repaired(m, alias, hot, latest, part))
    ensures var data := if alias in m[latest].aliases then m[latest].aliases[alias] else Alias(false, "");
            ActAll(m, if data.isWriteIndex then actions
              else actions + [Add(latest, alias, data.(isWriteIndex := true))])
            == Some(Repaired(m, alias, hot, latest, m.Keys))
  {
    var data := if alias in m[latest].aliases then m[latest].aliases[alias] else Alias(false, "");
    RepairedMore(m, alias, hot, latest, part, latest);
    OthersNeedNoRepair(m, alias, hot, latest, part + {latest});
    var before := Repaired(m, alias, hot, latest, part);
    if data.isWriteIndex {
      assert m[latest].aliases[alias := data] == m[latest].aliases;
      assert before[latest := m[latest]] == before;
    } else {
      ActOneMore(m, actions, Add(latest, alias, data.(isWriteIndex := true)));
    }
  }

  /** The alias actions of the bootstrap, given which indexes carry the alias. */
  method AliasActions(carriers: map<Name, Alias>, alias: string, hot: Name, latest: Name, ghost m: Indexes)
    returns (actions: seq<Action>)
    requires hot != latest && latest in m && carriers == Carriers(m, alias)
    ensures ActAll(m, actions) == Some(Repaired(m, alias, hot, latest, m.Keys))
    ensures actions == [] <==> Bootstrapped(m, alias, hot, latest)
  {
    actions := CarrierActions(carriers, alias, hot, latest, m);
    LatestActionRepairs(m, alias, hot, latest, carriers.Keys - {latest}, actions);
    var data := if latest in carriers then carriers[latest] else Alias(false, "");
    if !data.isWriteIndex {
      actions := actions + [Add(latest, alias, data.(isWriteIndex := true))];
    }
  }

  /** Alias changes keep every document. */
  lemma AliasesOnlyIsSafe(slots: set<Name>, a: Indexes, ledger: map<Name, Documents>, b: Indexes)
    requires SafeIn(slots, a, ledger) && a.Keys == b.Keys && forall x :: x in a ==> b[x].docs == a[x].docs
    ensures SafeIn(slots, b, ledger)
  {
    assert forall n :: Content(a, n) == Content(b, n);
  }

  /** So does an index that no slot looks at. */
  lemma OtherIndexIsSafe(slots: set<Name>, a: Indexes, ledger: map<Name, Documents>, b: Indexes, other: Name)
    requires SafeIn(slots, a, ledger) && other !in slots && !Temporary(other)
    requires forall x :: x != other ==> (x in a <==> x in b) && (x in a && x in b ==> b[x].docs == a[x].docs)
    ensures SafeIn(slots, b, ledger)
  {
    forall n | n in slots && n in ledger ensures Content(b, n) == ledger[n] {
      TempFacts(n);
      assert Content(a, n) == ledger[n];
    }
  }

  lemma InterferedBootstraps(slots: set<Name>, a: Indexes, b: Indexes, alias: string, hot: Name, latest: Name)
    requires Interfered(slots, a, b)
    ensures Bootstrapped(a, alias, hot, latest) <==> Bootstrapped(b, alias, hot, latest)
    ensures OtherwiseSame(a, b, alias, hot, latest)
    ensures Carriers(a, alias) == Carriers(b, alias)
  {
  }

  lemma OtherwiseSameAfter(slots: set<Name>, a: Indexes, b: Indexes, c: Indexes, alias: string, hot: Name, latest: Name)
    requires Interfered(slots, a, b) && OtherwiseSame(b, c, alias, hot, latest)
    ensures OtherwiseSame(a, c, alias, hot, latest)
  {
    assert forall x :: x in a ==> b[x].aliases == a[x].aliases;
  }

  /** Equal but for the documents, which alias actions ignore and keep. */
  ghost predicate SameButDocs(a: Indexes, b: Indexes) {
    a.Keys == b.Keys && forall n :: n in a ==> b[n] == a[n].(docs := b[n].docs)
  }

  lemma {:induction false} ActAllKeepsDocs(a: Indexes, b: Indexes, actions: seq<Action>)
    requires SameButDocs(a, b)
    ensures ActAll(a, actions).Some? <==> ActAll(b, actions).Some?
    ensures ActAll(a, actions).Some? ==>
      && SameButDocs(ActAll(a, actions).value, ActAll(b, actions).value)
      && forall n :: n in ActAll(b, actions).value ==> n in b && ActAll(b, actions).value[n].docs == b[n].docs
  {
    if actions != [] {
      var init := actions[..|actions| - 1];
      ActAllKeepsDocs(a, b, init);
      if ActAll(a, init).Some? {
        ActKeepsDocs(ActAll(a, init).value, ActAll(b, init).value, actions[|actions| - 1]);
      }
    }
  }

  lemma ActKeepsDocs(a: Indexes, b: Indexes, action: Action)
    requires SameButDocs(a, b)
    ensures Act(a, action).Some? <==> Act(b, action).Some?
    ensures Act(a, action).Some? ==>
      && SameButDocs(Act(a, action).value, Act(b, action).value)
      && forall n :: n in Act(b, action).value ==> n in b && Act(b, action).value[n].docs == b[n].docs
  {
  }

  lemma RepairsLater(a: Indexes, b: Indexes, c: Indexes, alias: string, hot: Name, latest: Name, actions: seq<Action>)
    requires latest in a && hot != latest && SameButDocs(a, b) && ActAll(b, actions) == Some(c)
    requires ActAll(a, actions) == Some(Repaired(a, alias, hot, latest, a.Keys))
    ensures Bootstrapped(c, alias, hot, latest) && OtherwiseSame(a, c, alias, hot, latest)
    ensures c.Keys == b.Keys && forall x :: x in c ==> c[x].docs == b[x].docs
  {
    ActAllKeepsDocs(a, b, actions);
    var repaired := Repaired(a, alias, hot, latest, a.Keys);
    RepairBootstraps(a, alias, hot, latest);
    assert SameButDocs(repaired, c);
  }

  // ---------------------------------------------------------------- an alias over existing rollover indexes

  method ApplyActions(es: Elastic, name: string, latest: Name, actions: seq<Action>) returns (r: Status)
    requires es.Valid() && latest in es.indexes && Hot(name) != latest
    requires ActAll(es.indexes, actions) == Some(Repaired(es.indexes, name, Hot(name), latest, es.indexes.Keys))
    modifies es
    ensures OnlyFaults(es, r.Raised?)
    ensures es.Valid() && (old(es.Sound()) ==> es.Sound())
    ensures r.Ok? ==> Bootstrapped(es.indexes, name, Hot(name), latest)
    ensures OtherwiseSame(old(es.indexes), es.indexes, name, Hot(name), latest)
    ensures r.Raised? ==> Interfered(es.slots, old(es.indexes), es.indexes)
  {
    r := es.UpdateAliases(actions);
    ActAllKeepsDocs(old(es.indexes), es.seen, actions);
    if r.Ok? {
      RepairsLater(old(es.indexes), es.seen, es.indexes, name, Hot(name), latest, actions);
      if old(es.Sound()) {
        AliasesOnlyIsSafe(es.slots, es.seen, es.ledger, es.indexes);
      }
    }
  }

  /** Which indexes carry the alias: it is only asked when there is one. */
  method AliasCarriers(es: Elastic, name: string) returns (r: Reply<map<Name, Alias>>)
    requires es.Valid()
    modifies es
    ensures es.Valid() && Interfered(es.slots, old(es.indexes), es.indexes) && (old(es.Sound()) ==> es.Sound())
    ensures OnlyFaults(es, r.Error?)
    ensures r.Done? ==> r.value == Carriers(es.indexes, name)
  {
    r := es.GetAlias(name);
    if r.Done? && r.value != map[] {
      ghost var mid := es.indexes;
      r := es.GetAlias(name);
      InterferedTwice(es.slots, old(es.indexes), mid, es.indexes);
    }
  }

  /** Make `latest` the alias's one write index and drop the legacy index from it. */
  method EnsureAlias(es: Elastic, name: string, latest: Name) returns (r: Status, ghost issued: seq<Action>)
    requires es.Valid() && latest in es.indexes && Hot(name) != latest
    modifies es
    ensures OnlyFaults(es, r.Raised?)
    ensures es.Valid() && (old(es.Sound()) ==> es.Sound())
    ensures r.Ok? ==> Bootstrapped(es.indexes, name, Hot(name), latest)
    ensures OtherwiseSame(old(es.indexes), es.indexes, name, Hot(name), latest)
    ensures r.Ok? ==> (issued == [] <==> Bootstrapped(old(es.indexes), name, Hot(name), latest))
    ensures r.Raised? || issued == [] ==> Interfered(es.slots, old(es.indexes), es.indexes)
  {
    issued := [];
    ghost var start := es.indexes;
    var carriers := AliasCarriers(es, name);
    InterferedBootstraps(es.slots, start, es.indexes, name, Hot(name), latest);
    if carriers.Error? { return Raised, []; }
    var actions := AliasActions(carriers.value, name, Hot(name), latest, es.indexes);
    if actions == [] {
      return Ok, [];
    }
    issued := actions;
    ghost var mid := es.indexes;
    r := ApplyActions(es, name, latest, actions);
    OtherwiseSameAfter(es.slots, start, mid, es.indexes, name, Hot(name), latest);
    if r.Raised? {
      InterferedTwice(es.slots, start, mid, es.indexes);
    }
  }

  // ---------------------------------------------------------------- migration from the legacy index

  /** Under the legacy index's write block: clone it, unblock the clone, and move the alias to it. */
  method CloneAndSwap(es: Elastic, name: string) returns (r: Status)
    requires es.Valid() && Hot(name) in es.slots && Initial(name) !in es.slots
    requires Hot(name) in es.indexes && es.indexes[Hot(name)].blocked
    modifies es
    ensures Hot(name) in old(es.frozen) ==>
      Hot(name) in es.frozen && es.frozen[Hot(name)] == old(es.frozen)[Hot(name)]
    ensures Initial(name) !in old(es.indexes) ==> OnlyFaults(es, r.Raised?)
    ensures es.faults >= old(es.faults)
    ensures es.Valid() && Kept(old(es.indexes), es.indexes, {Hot(name), Initial(name)})
    ensures old(es.Sound()) ==> es.Sound()
    ensures Initial(name) in old(es.indexes) ==> r.Raised?
    ensures r.Raised? ==> PartialOnly(old(es.indexes), es.indexes, name)
    ensures Hot(name) in es.indexes && es.indexes[Hot(name)].docs == old(es.indexes)[Hot(name)].docs
    ensures r.Ok? ==> Migrated(old(es.indexes), es.indexes, name)
    ensures r.Raised? ==> es.indexes[Hot(name)] == old(es.indexes)[Hot(name)]
  {
    var hot, initial := Hot(name), Initial(name);
    NamesDiffer(name);
    ghost var start := es.indexes;
    :- CloneHot(es, name);
    ghost var cloned := es.indexes;
    r := UnblockAndSwap(es, name);
    BothKept(start, cloned, es.indexes, {Hot(name), Initial(name)});
  }

  method UnblockAndSwap(es: Elastic, name: string) returns (r: Status)
    requires es.Valid() && Hot(name) in es.slots && Initial(name) !in es.slots
    requires Hot(name) in es.indexes && es.indexes[Hot(name)].blocked
    requires Initial(name) in es.indexes && es.indexes[Initial(name)].aliases == map[]
    modifies es
    ensures Hot(name) in old(es.frozen) ==>
      Hot(name) in es.frozen && es.frozen[Hot(name)] == old(es.frozen)[Hot(name)]
    ensures OnlyFaults(es, r.Raised?)
    ensures es.Valid() && Kept(old(es.indexes), es.indexes, {Hot(name), Initial(name)})
    ensures old(es.Sound()) ==> es.Sound()
    ensures Hot(name) in es.indexes && Initial(name) in es.indexes
    ensures r.Raised? ==>
      es.indexes[Hot(name)] == old(es.indexes)[Hot(name)] && es.indexes[Initial(name)].aliases == map[]
    ensures r.Ok? ==>
      && es.indexes[Hot(name)] == old(es.indexes)[Hot(name)].(aliases := old(es.indexes)[Hot(name)].aliases - {name})
      && es.indexes[Initial(name)]
         == old(es.indexes)[Initial(name)].(aliases := map[name := Alias(true, "")], blocked := false)
  {
    var hot, initial := Hot(name), Initial(name);
    NamesDiffer(name);
    ghost var start := es.indexes;
    var carriers := UnblockClone(es, name);
    if carriers.Error? { return Raised; }
    ghost var ready := es.indexes;
    r := SwapAlias(es, name, SwapActions(hot, initial, name, hot in carriers.value));
    BothKept(start, ready, es.indexes, {hot, initial});
  }

  /** The clone accepts writes afterwards; the answer is which indexes carry the alias. */
  method UnblockClone(es: Elastic, name: string) returns (r: Reply<map<Name, Alias>>)
    requires es.Valid() && Hot(name) in es.slots && Initial(name) !in es.slots
    requires Hot(name) in es.indexes && es.indexes[Hot(name)].blocked && Initial(name) in es.indexes
    modifies es
    ensures Hot(name) in old(es.frozen) ==>
      Hot(name) in es.frozen && es.frozen[Hot(name)] == old(es.frozen)[Hot(name)]
    ensures OnlyFaults(es, r.Error?)
    ensures es.Valid() && Kept(old(es.indexes), es.indexes, {Initial(name)}) && (old(es.Sound()) ==> es.Sound())
    ensures Hot(name) in es.indexes && es.indexes[Hot(name)] == old(es.indexes)[Hot(name)]
    ensures Initial(name) in es.indexes && es.indexes[Initial(name)].aliases == old(es.indexes)[Initial(name)].aliases
    ensures r.Done? ==>
      && r.value == Carriers(es.indexes, name)
      && es.indexes[Initial(name)] == old(es.indexes)[Initial(name)].(blocked := false)
  {
    NamesDiffer(name);
    var status := es.Touch();
    if status.Raised? { return Error; }
    status := es.PutBlock(Initial(name), false);
    if status.Raised? { return Error; }
    r := es.GetAlias(name);
  }

  lemma BothKept(a: Indexes, b: Indexes, c: Indexes, except: set<Name>)
    requires Kept(a, b, except) && Kept(b, c, except)
    ensures Kept(a, c, except)
  {
  }

  /** The first rollover index is as it was before, or is a clone without aliases that was not there before. */
  ghost predicate PartialOnly(a: Indexes, b: Indexes, name: string) {
    Initial(name) in b ==>
      b[Initial(name)].aliases == if Initial(name) in a then a[Initial(name)].aliases else map[]
  }

  /** The new index holds the legacy index's documents, accepts writes and carries the alias as its write index; the
      legacy index only lost the alias. */
  ghost predicate Migrated(a: Indexes, b: Indexes, name: string) {
    var hot, initial := Hot(name), Initial(name);
    && hot in a && hot in b && b[hot] == a[hot].(aliases := a[hot].aliases - {name})
    && initial in b && b[initial].docs == a[hot].docs && !b[initial].blocked && b[initial].shards == a[hot].shards
    && b[initial].aliases == map[name := Alias(true, "")]
  }

  method CloneHot(es: Elastic, name: string) returns (r: Status)
    requires es.Valid() && Hot(name) in es.slots && Initial(name) !in es.slots
    requires Hot(name) in es.indexes && es.indexes[Hot(name)].blocked
    modifies es
    ensures Hot(name) in old(es.frozen) ==>
      Hot(name) in es.frozen && es.frozen[Hot(name)] == old(es.frozen)[Hot(name)]
    ensures Initial(name) !in old(es.indexes) ==> OnlyFaults(es, r.Raised?)
    ensures es.faults >= old(es.faults)
    ensures es.Valid() && Kept(old(es.indexes), es.indexes, {Initial(name)}) && (old(es.Sound()) ==> es.Sound())
    ensures Hot(name) in es.indexes && es.indexes[Hot(name)] == old(es.indexes)[Hot(name)]
    ensures r.Ok? ==>
      && Initial(name) !in old(es.indexes) && Initial(name) in es.indexes
      && es.indexes[Initial(name)] == old(es.indexes)[Hot(name)].(aliases := map[])
    ensures r.Raised? ==> PartialOnly(old(es.indexes), es.indexes, name)
  {
    NamesDiffer(name);
    InitialIsNoTarget(name);
    r := es.Clone(Hot(name), Initial(name));
    if old(es.Sound()) {
      OtherIndexIsSafe(es.slots, es.seen, es.ledger, es.indexes, Initial(name));
    }
  }

  lemma InitialIsNoTarget(name: string)
    ensures Rollover(name, Initial(name)) && !Temporary(Initial(name))
  {
    var n := Initial(name);
    assert n[..|name| + 1] == name + "-";
    assert n[|name| + 1..] == "000001";
    assert forall k :: |name| < k < |n| ==> n[k] == n[|name| + 1..][k - |name| - 1];
    RolloverIsNoTarget(name, n);
  }

  /** The switch's actions. */
  function SwapActions(hot: Name, initial: Name, name: string, remove: bool): seq<Action> {
    [Add(initial, name, Alias(true, ""))] + (if remove then [Remove(hot, name)] else [])
  }

  /** Their effect. */
  function Swapped(m: Indexes, hot: Name, initial: Name, name: string): Indexes
    requires hot in m && initial in m
  {
    m[initial := m[initial].(aliases := map[name := Alias(true, "")])]
     [hot := m[hot].(aliases := m[hot].aliases - {name})]
  }

  lemma SwapActs(m: Indexes, hot: Name, initial: Name, name: string)
    requires hot in m && initial in m && hot != initial && m[initial].aliases == map[]
    ensures ActAll(m, SwapActions(hot, initial, name, name in m[hot].aliases)) == Some(Swapped(m, hot, initial, name))
  {
    var add := Add(initial, name, Alias(true, ""));
    var added := m[initial := m[initial].(aliases := map[name := Alias(true, "")])];
    assert [add][..0] == [];
    assert ActAll(m, []) == Some(m);
    assert ActAll(m, [add]) == Act(m, add) == Some(added);
    if name in m[hot].aliases {
      ActOneMore(m, [add], Remove(hot, name));
    } else {
      assert [add] + [] == [add];
      assert m[hot].aliases - {name} == m[hot].aliases;
      assert added[hot := m[hot]] == added;
    }
  }

  lemma SwapKeeps(m: Indexes, hot: Name, initial: Name, name: string)
    requires hot in m && initial in m && hot != initial
    ensures var after := Swapped(m, hot, initial, name);
            && after.Keys == m.Keys && (forall x :: x in m ==> after[x].docs == m[x].docs)
            && (forall x :: x in m && x != hot && x != initial ==> after[x] == m[x])
  {
  }

  method SwapAlias(es: Elastic, name: string, actions: seq<Action>) returns (r: Status)
    requires es.Valid() && Hot(name) in es.indexes && Initial(name) in es.indexes
    requires es.indexes[Initial(name)].aliases == map[]
    requires es.indexes[Hot(name)].blocked && Initial(name) !in es.slots
    requires actions == SwapActions(Hot(name), Initial(name), name, name in es.indexes[Hot(name)].aliases)
    modifies es
    ensures Hot(name) in old(es.frozen) ==>
      Hot(name) in es.frozen && es.frozen[Hot(name)] == old(es.frozen)[Hot(name)]
    ensures OnlyFaults(es, r.Raised?)
    ensures es.Valid() && Kept(old(es.indexes), es.indexes, {Hot(name), Initial(name)})
    ensures old(es.Sound()) ==> es.Sound()
    ensures Hot(name) in es.indexes && Initial(name) in es.indexes
    ensures r.Raised? ==>
      es.indexes[Hot(name)] == old(es.indexes)[Hot(name)] && es.indexes[Initial(name)].aliases == map[]
    ensures r.Ok? ==>
      && es.indexes[Hot(name)] == old(es.indexes)[Hot(name)].(aliases := old(es.indexes)[Hot(name)].aliases - {name})
      && es.indexes[Initial(name)] == old(es.indexes)[Initial(name)].(aliases := map[name := Alias(true, "")])
  {
    NamesDiffer(name);
    r := es.UpdateAliases(actions);
    SwapActs(es.seen, Hot(name), Initial(name), name);
    if r.Ok? {
      SwapKeeps(es.seen, Hot(name), Initial(name), name);
      if old(es.Sound()) {
        AliasesOnlyIsSafe(es.slots, es.seen, es.ledger, es.indexes);
      }
    }
  }

  function Failures(unblocked: Status, cleaned: Status): nat {
    (if unblocked.Raised? then 1 else 0) + if cleaned.Raised? then 1 else 0
  }

  /** What the handler does: restore writes, and remove the partial index. It goes on when a call raises. */
  method Rollback(es: Elastic, name: string) returns (unblocked: Status, cleaned: Status)
    requires es.Valid() && Hot(name) in es.slots && Initial(name) !in es.slots
    modifies es
    ensures Hot(name) in old(es.indexes) ==> es.faults >= old(es.faults) + Failures(unblocked, cleaned)
    ensures es.faults >= old(es.faults)
    ensures es.Valid() && Kept(old(es.indexes), es.indexes, {Hot(name), Initial(name)})
    ensures old(es.Sound()) ==> es.Sound()
    ensures Hot(name) in es.indexes <==> Hot(name) in old(es.indexes)
    ensures Hot(name) in es.indexes && Hot(name) in old(es.indexes) ==>
      es.indexes[Hot(name)].aliases == old(es.indexes)[Hot(name)].aliases
    ensures unblocked.Ok? ==> Hot(name) in es.indexes && !es.indexes[Hot(name)].blocked
    ensures cleaned.Ok? ==> Initial(name) !in es.indexes
    ensures Initial(name) in es.indexes ==>
      Initial(name) in old(es.indexes) && es.indexes[Initial(name)].aliases == old(es.indexes)[Initial(name)].aliases
  {
    NamesDiffer(name);
    ghost var start := es.indexes;
    unblocked := es.PutBlock(Hot(name), false);
    assert Kept(start, es.indexes, {Hot(name), Initial(name)});
    cleaned := RemovePartial(es, name);
    assert Kept(start, es.indexes, {Hot(name), Initial(name)});
  }

  method RemovePartial(es: Elastic, name: string) returns (cleaned: Status)
    requires es.Valid() && Initial(name) !in es.slots
    modifies es
    ensures OnlyFaults(es, cleaned.Raised?)
    ensures es.Valid() && Kept(old(es.indexes), es.indexes, {Initial(name)}) && (old(es.Sound()) ==> es.Sound())
    ensures cleaned.Ok? ==> Initial(name) !in es.indexes
    ensures Initial(name) in es.indexes ==>
      Initial(name) in old(es.indexes) && es.indexes[Initial(name)].aliases == old(es.indexes)[Initial(name)].aliases
  {
    InitialIsNoTarget(name);
    var there :- es.Exists(Initial(name));
    if there {
      cleaned := es.Delete(Initial(name));
      if old(es.Sound()) {
        OtherIndexIsSafe(es.slots, es.seen, es.ledger, es.indexes, Initial(name));
      }
    } else {
      cleaned := Ok;
    }
  }

  /** The same indexes with the same aliases, the legacy one accepting writes, the others as blocked as they were. */
  ghost predicate Restored(a: Indexes, b: Indexes, name: string) {
    && a.Keys == b.Keys
    && (forall x :: x in a ==> b[x].aliases == a[x].aliases && (x != Hot(name) ==> b[x].blocked == a[x].blocked))
    && Hot(name) in b && !b[Hot(name)].blocked
  }

  lemma RolledBackIsRestored(name: string, a: Indexes, b: Indexes)
    requires Kept(a, b, {Hot(name), Initial(name)}) && Hot(name) in a && Initial(name) !in a
    requires Hot(name) in b && b[Hot(name)].aliases == a[Hot(name)].aliases && !b[Hot(name)].blocked
    requires Initial(name) !in b
    ensures Restored(a, b, name)
  {
    forall x ensures x in a <==> x in b { }
  }

  /** The first rollover index has the documents the legacy one was blocked with, and its shard count; both accept
      writes. */
  ghost predicate Taken(es: Elastic, name: string)
    reads es
  {
    && Hot(name) in es.indexes && Initial(name) in es.indexes && Hot(name) in es.frozen
    && es.indexes[Initial(name)].docs == es.frozen[Hot(name)]
    && es.indexes[Initial(name)].shards == es.indexes[Hot(name)].shards
    && !es.indexes[Initial(name)].blocked && !es.indexes[Hot(name)].blocked
  }

  datatype Migration = NotStarted | RolledBack(unblocked: Status, cleaned: Status) | Switched

  /** Under the write block: switch and unblock, or roll back and raise. */
  method SwitchOrRollBack(es: Elastic, name: string) returns (r: Status, ghost stage: Migration)
    requires es.Valid() && Hot(name) in es.slots && Initial(name) !in es.slots
    requires Hot(name) in es.indexes && es.indexes[Hot(name)].blocked
    requires Hot(name) in es.frozen && es.frozen[Hot(name)] == es.indexes[Hot(name)].docs
    modifies es
    ensures es.Valid() && Kept(old(es.indexes), es.indexes, {Hot(name), Initial(name)})
    ensures old(es.Sound()) ==> es.Sound()
    ensures es.faults >= old(es.faults) && (r.Ok? ==> es.faults == old(es.faults))
    ensures Initial(name) !in old(es.indexes) ==> (r.Ok? <==> es.faults == old(es.faults))
    ensures Hot(name) in es.indexes && stage != NotStarted
    ensures r.Ok? ==> stage == Switched && Taken(es, name)
    ensures stage.RolledBack? ==>
      && r.Raised?
      && es.faults >= old(es.faults) + Failures(stage.unblocked, stage.cleaned)
           + (if Initial(name) in old(es.indexes) then 0 else 1)
      && es.indexes[Hot(name)].aliases == old(es.indexes)[Hot(name)].aliases
      && PartialOnly(old(es.indexes), es.indexes, name)
      && (stage.unblocked.Ok? ==> !es.indexes[Hot(name)].blocked)
      && (stage.cleaned.Ok? ==> Initial(name) !in es.indexes)
    ensures stage == Switched ==>
      && Initial(name) !in old(es.indexes)
      && es.indexes[Hot(name)].aliases == old(es.indexes)[Hot(name)].aliases - {name}
      && Initial(name) in es.indexes && !es.indexes[Initial(name)].blocked
      && es.indexes[Initial(name)].aliases == map[name := Alias(true, "")]
      && es.indexes[Initial(name)].docs == old(es.indexes)[Hot(name)].docs
  {
    NamesDiffer(name);
    ghost var start := es.indexes;
    r := CloneAndSwap(es, name);
    if r.Raised? {
      ghost var failed := es.indexes;
      var unblocked, cleaned := Rollback(es, name);
      stage := RolledBack(unblocked, cleaned);
      BothKept(start, failed, es.indexes, {Hot(name), Initial(name)});
    } else {
      stage := Switched;
      r := es.PutBlock(Hot(name), false);
      assert Kept(start, es.indexes, {Hot(name), Initial(name)});
    }
  }

  /** Migrate the legacy index; on a failure under the write block, roll back and raise. Another process may have
      made the first rollover index since this one looked. */
  method Migrate(es: Elastic, name: string) returns (r: Status, ghost stage: Migration, ghost blocked: Indexes)
    requires es.Valid() && Hot(name) in es.slots && Initial(name) !in es.slots && Hot(name) in es.indexes
    modifies es
    ensures stage == NotStarted ==> r.Raised? && es.faults > old(es.faults)
    ensures stage.RolledBack? ==>
      es.faults >= old(es.faults) + Failures(stage.unblocked, stage.cleaned)
        + if Initial(name) in old(es.indexes) then 0 else 1
    ensures es.faults >= old(es.faults)
    ensures Initial(name) !in old(es.indexes) ==> (r.Ok? <==> es.faults == old(es.faults))
    ensures es.Valid() && Kept(old(es.indexes), es.indexes, {Hot(name), Initial(name)})
    ensures old(es.Sound()) ==> es.Sound()
    ensures Hot(name) in es.indexes
    ensures r.Ok? ==> stage == Switched && Taken(es, name)
    ensures stage == NotStarted ==> Interfered(es.slots, old(es.indexes), es.indexes)
    ensures stage != Switched ==>
      es.indexes[Hot(name)].aliases == old(es.indexes)[Hot(name)].aliases
        && PartialOnly(old(es.indexes), es.indexes, name)
    ensures stage.RolledBack? && stage.cleaned.Ok? ==>
      && Initial(name) !in es.indexes
      && (stage.unblocked.Ok? && Initial(name) !in old(es.indexes) ==> Restored(old(es.indexes), es.indexes, name))
    ensures stage == Switched ==>
      && Initial(name) !in old(es.indexes)
      && es.indexes[Hot(name)].aliases == old(es.indexes)[Hot(name)].aliases - {name}
      && Initial(name) in es.indexes && !es.indexes[Initial(name)].blocked
      && es.indexes[Initial(name)].aliases == map[name := Alias(true, "")]
      && Hot(name) in blocked && blocked[Hot(name)].blocked && es.indexes[Initial(name)].docs == blocked[Hot(name)].docs
  {
    NamesDiffer(name);
    ghost var start := es.indexes;
    stage, blocked := NotStarted, start;
    :- es.PutBlock(Hot(name), true);
    blocked := es.indexes;
    assert Kept(start, blocked, {Hot(name), Initial(name)});
    r, stage := SwitchOrRollBack(es, name);
    BothKept(start, blocked, es.indexes, {Hot(name), Initial(name)});
    if stage == RolledBack(Ok, Ok) && Initial(name) !in start {
      RolledBackIsRestored(name, start, es.indexes);
    }
  }

  /** The names an alias stands for. */
  function CarrierNames(m: Indexes, name: string): set<Name> {
    set n | n in m && name in m[n].aliases
  }

  lemma SwitchedCarriers(a: Indexes, b: Indexes, name: string)
    requires Kept(a, b, {Hot(name), Initial(name)}) && Hot(name) in a && Hot(name) in b && Initial(name) !in a
    requires b[Hot(name)].aliases == a[Hot(name)].aliases - {name}
    requires Initial(name) in b && name in b[Initial(name)].aliases
    ensures CarrierNames(b, name) == CarrierNames(a, name) - {Hot(name)} + {Initial(name)}
  {
    NamesDiffer(name);
  }

  lemma RolledBackCarriers(a: Indexes, b: Indexes, name: string)
    requires Kept(a, b, {Hot(name), Initial(name)}) && Hot(name) in a && Hot(name) in b && Initial(name) !in b
    requires b[Hot(name)].aliases == a[Hot(name)].aliases
    ensures CarrierNames(b, name) == CarrierNames(a, name) - {Initial(name)}
  {
    NamesDiffer(name);
  }

  /** Two processes that both found the legacy index only. When the second one's clone fails and it rolls back, the
      index it removes carries the alias exactly when the first one has switched: then the alias has lost both the
      legacy index and the new one. Otherwise it stands for what it stood for. */
  method TwoMigrations(es: Elastic, name: string)
    returns (ghost first: Migration, ghost second: Migration, ghost between: Indexes)
    requires es.Valid() && Hot(name) in es.slots && Initial(name) !in es.slots
    requires Hot(name) in es.indexes && Initial(name) !in es.indexes
    modifies es
    ensures es.Valid() && (old(es.Sound()) ==> es.Sound())
    ensures first == Switched ==> second != Switched
    ensures second.RolledBack? && second.cleaned.Ok? ==>
      && (CarrierNames(es.indexes, name) == CarrierNames(between, name) <==> first != Switched)
      && (first == Switched ==> CarrierNames(es.indexes, name) == CarrierNames(old(es.indexes), name) - {Hot(name)})
  {
    NamesDiffer(name);
    ghost var start := es.indexes;
    ghost var blocked: Indexes;
    var r: Status;
    r, first, blocked := Migrate(es, name);
    between := es.indexes;
    if first == Switched {
      SwitchedCarriers(start, between, name);
    }
    r, second, blocked := Migrate(es, name);
    if second.RolledBack? && second.cleaned.Ok? {
      RolledBackCarriers(between, es.indexes, name);
      assert Initial(name) !in CarrierNames(start, name);
    }
  }

  /** After the alias has moved, it has one write index, provided the legacy index was the only one before. */
  lemma SwitchedIsBootstrapped(name: string, a: Indexes, b: Indexes)
    requires Kept(a, b, {Hot(name), Initial(name)}) && Hot(name) in a && Hot(name) in b
    requires b[Hot(name)].aliases == a[Hot(name)].aliases - {name}
    requires Initial(name) in b && b[Initial(name)].aliases == map[name := Alias(true, "")]
    requires forall x :: x in a && x != Hot(name) && name in a[x].aliases ==> !a[x].aliases[name].isWriteIndex
    ensures Bootstrapped(b, name, Hot(name), Initial(name))
  {
    NamesDiffer(name);
  }

  // ---------------------------------------------------------------- the bootstrap

  ghost function Matching(m: Indexes, name: string): set<Name> {
    set n | n in m && Prefix(name) <= n
  }

  ghost predicate OnlyHotWrites(m: Indexes, name: string) {
    forall x :: x in m && x != Hot(name) && name in m[x].aliases ==> !m[x].aliases[name].isWriteIndex
  }

  /** The first rollover index was made from the legacy one, or from scratch when there was none. */
  ghost predicate Started(es: Elastic, name: string, shards: nat, legacy: bool)
    reads es
  {
    if legacy then Taken(es, name)
    else Initial(name) in es.indexes && es.indexes[Initial(name)] == FirstIndex(name, shards)
  }

  /** What one run does: over existing rollover indexes, by migration, or from scratch. `issued` are its alias
      actions. */
  method EnsureCollectionIlm(es: Elastic, name: string, shards: nat)
    returns (r: Status, indexName: Name, ghost issued: seq<Action>)
    requires es.Valid() && Hot(name) in es.slots && Initial(name) !in es.slots
    modifies es
    ensures es.faults >= old(es.faults) && (r.Raised? ==> es.faults > old(es.faults))
    ensures es.Valid() && (old(es.Sound()) ==> es.Sound())
    ensures r.Ok? ==> IsLatest(Matching(es.indexes, name), indexName)
    ensures Matching(old(es.indexes), name) == {} ==>
      && Kept(old(es.indexes), es.indexes, {Hot(name), Initial(name)})
      && (r.Ok? ==> indexName == Initial(name) && Started(es, name, shards, Hot(name) in old(es.indexes)))
    ensures r.Ok? && Matching(old(es.indexes), name) != {} ==> IsLatest(Matching(old(es.indexes), name), indexName)
    ensures r.Ok? && (Matching(old(es.indexes), name) != {} || OnlyHotWrites(old(es.indexes), name)) ==>
      Bootstrapped(es.indexes, name, Hot(name), indexName)
    ensures r.Ok? && IsLatest(Matching(old(es.indexes), name), indexName) ==>
      && OtherwiseSame(old(es.indexes), es.indexes, name, Hot(name), indexName)
      && (issued == [] <==> Bootstrapped(old(es.indexes), name, Hot(name), indexName))
  {
    NamesDiffer(name);
    indexName, issued := Hot(name), [];
    ghost var start := es.indexes;
    :- es.Touch();
    :- es.Touch();
    var existing :- es.ListMatching(Prefix(name));
    assert existing == Matching(start, name);
    if existing != {} {
      var latest := Latest(existing);
      ghost var mid := es.indexes;
      r, issued := EnsureAlias(es, name, latest);
      LatestStays(es.slots, start, mid, es.indexes, name, latest);
      indexName := latest;
    } else {
      r := Start(es, name, shards, start);
      indexName := Initial(name);
    }
  }

  lemma LatestStays(slots: set<Name>, a: Indexes, b: Indexes, c: Indexes, name: string, latest: Name)
    requires Interfered(slots, a, b) && OtherwiseSame(b, c, name, Hot(name), latest)
    requires IsLatest(Matching(a, name), latest)
    ensures Matching(c, name) == Matching(a, name) && OtherwiseSame(a, c, name, Hot(name), latest)
    ensures Bootstrapped(a, name, Hot(name), latest) <==> Bootstrapped(b, name, Hot(name), latest)
  {
    OtherwiseSameAfter(slots, a, b, c, name, Hot(name), latest);
    InterferedBootstraps(slots, a, b, name, Hot(name), latest);
  }

  /** The two ways to the first rollover index. */
  method Start(es: Elastic, name: string, shards: nat, ghost start: Indexes) returns (r: Status)
    requires es.Valid() && Hot(name) in es.slots && Initial(name) !in es.slots
    requires Interfered(es.slots, start, es.indexes) && Matching(start, name) == {}
    modifies es
    ensures es.faults >= old(es.faults) && (r.Raised? ==> es.faults > old(es.faults))
    ensures es.Valid() && (old(es.Sound()) ==> es.Sound())
    ensures Kept(start, es.indexes, {Hot(name), Initial(name)})
    ensures r.Ok? ==> Started(es, name, shards, Hot(name) in start)
    ensures r.Ok? ==> IsLatest(Matching(es.indexes, name), Initial(name))
    ensures r.Ok? && OnlyHotWrites(start, name) ==> Bootstrapped(es.indexes, name, Hot(name), Initial(name))
  {
    LeTotal(Initial(name), Initial(name));
    NamesDiffer(name);
    assert Initial(name) !in start by { assert Initial(name) in start ==> Initial(name) in Matching(start, name); }
    var hotThere :- es.Exists(Hot(name));
    ghost var mid := es.indexes;
    InterferedTwice(es.slots, start, old(es.indexes), mid);
    if hotThere {
      r := MigrateFirst(es, name);
    } else {
      r := CreateInitial(es, name, shards);
    }
    if r.Ok? {
      OnlyInitialMatches(es.slots, start, mid, es.indexes, name);
    }
  }

  /** The migration, seen from the bootstrap. */
  method MigrateFirst(es: Elastic, name: string) returns (r: Status)
    requires es.Valid() && Hot(name) in es.slots && Initial(name) !in es.slots
    requires Hot(name) in es.indexes && Initial(name) !in es.indexes
    modifies es
    ensures es.faults >= old(es.faults) && (r.Raised? ==> es.faults > old(es.faults))
    ensures es.Valid() && Kept(old(es.indexes), es.indexes, {Hot(name), Initial(name)})
    ensures old(es.Sound()) ==> es.Sound()
    ensures r.Ok? ==> Taken(es, name)
    ensures r.Ok? && OnlyHotWrites(old(es.indexes), name) ==> Bootstrapped(es.indexes, name, Hot(name), Initial(name))
  {
    ghost var stage: Migration, blocked: Indexes;
    r, stage, blocked := Migrate(es, name);
    if r.Ok? && OnlyHotWrites(old(es.indexes), name) {
      SwitchedIsBootstrapped(name, old(es.indexes), es.indexes);
    }
  }

  /** The first rollover index as it is created: empty, with the shard count asked for, the alias's write index. */
  function FirstIndex(name: string, shards: nat): Index {
    Index(map[], false, map[name := Alias(true, "")], shards)
  }

  /** One process's attempt at the first rollover index. */
  method TryCreate(es: Elastic, name: string, shards: nat) returns (r: Status, there: bool)
    requires es.Valid() && Initial(name) !in es.slots
    modifies es
    ensures es.faults >= old(es.faults) && (r.Raised? && !there ==> es.faults > old(es.faults))
    ensures es.Valid() && Kept(old(es.indexes), es.indexes, {Initial(name)}) && (old(es.Sound()) ==> es.Sound())
    ensures r.Ok? || there ==> Initial(name) in es.indexes
    ensures r.Ok? ==> es.indexes[Initial(name)] == FirstIndex(name, shards)
    ensures Initial(name) in old(es.indexes) ==>
      Initial(name) in es.indexes && es.indexes[Initial(name)] == old(es.indexes)[Initial(name)]
    ensures r.Raised? ==> (Initial(name) in es.indexes <==> Initial(name) in old(es.indexes))
  {
    InitialIsNoTarget(name);
    r, there := es.CreateAliased(Initial(name), shards, FirstIndex(name, shards).aliases);
    if old(es.Sound()) {
      OtherIndexIsSafe(es.slots, es.seen, es.ledger, es.indexes, Initial(name));
    }
  }

  /** From scratch. Another process may be creating the same index, and then this one takes it as it is. */
  method CreateInitial(es: Elastic, name: string, shards: nat) returns (r: Status)
    requires es.Valid() && Initial(name) !in es.slots && Initial(name) !in es.indexes && Hot(name) !in es.indexes
    modifies es
    ensures es.faults >= old(es.faults) && (r.Raised? ==> es.faults > old(es.faults))
    ensures es.Valid() && Kept(old(es.indexes), es.indexes, {Hot(name), Initial(name)})
    ensures old(es.Sound()) ==> es.Sound()
    ensures r.Ok? ==> Initial(name) in es.indexes && es.indexes[Initial(name)] == FirstIndex(name, shards)
    ensures Hot(name) !in es.indexes
    ensures r.Ok? && OnlyHotWrites(old(es.indexes), name) ==> Bootstrapped(es.indexes, name, Hot(name), Initial(name))
  {
    NamesDiffer(name);
    var rival: bool := *;
    if rival {
      var _, _ := TryCreate(es, name, shards);
    }
    var there: bool;
    r, there := TryCreate(es, name, shards);
    if r.Raised? && there {
      r := Ok;
    }
  }

  lemma OnlyInitialMatches(slots: set<Name>, a: Indexes, b: Indexes, c: Indexes, name: string)
    requires Interfered(slots, a, b) && Kept(b, c, {Hot(name), Initial(name)}) && Matching(a, name) == {}
    requires Initial(name) in c
    ensures Matching(c, name) == {Initial(name)}
  {
    NamesDiffer(name);
    forall x ensures x in Matching(c, name) <==> x == Initial(name) {
      assert x in a && Prefix(name) <= x ==> x in Matching(a, name);
    }
  }

  /** Bootstrapping converges: a second run finds the same latest index and issues no alias action. */
  method BootstrapTwice(es: Elastic, name: string, shards: nat)
    returns (first: Status, second: Status, ghost issued: seq<Action>)
    requires es.Valid() && Hot(name) in es.slots && Initial(name) !in es.slots
    requires Matching(es.indexes, name) != {} || OnlyHotWrites(es.indexes, name)
    modifies es
    ensures first.Raised? || second.Raised? ==> es.faults > old(es.faults)
    ensures es.Valid() && (old(es.Sound()) ==> es.Sound())
    ensures first.Ok? && second.Ok? ==> issued == []
  {
    var indexName: Name, again: Name;
    second, issued := Ok, [];
    first, indexName, issued := EnsureCollectionIlm(es, name, shards);
    if first.Ok? {
      ghost var mid := es.indexes;
      second, again, issued := EnsureCollectionIlm(es, name, shards);
      if second.Ok? {
        LatestUnique(Matching(mid, name), indexName, again);
      }
    }
  }
}
