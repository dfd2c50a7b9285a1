/** The Elasticsearch cluster as the maintenance protocols see it: physical indexes with documents, a write block and
    aliases. Every call is one atomic step that takes effect or raises without effect; before each of them any
    number of writers may change the documents of indexes that are not write-blocked. A process that dies is a
    run in which every later call raises. */
module Elastic {
  import opened Wrappers

  type Name = string
  type Documents = map<string, string>

  /** `is_write_index`, and the other settings of an alias as opaque text. */
  datatype Alias = Alias(isWriteIndex: bool, settings: string)
  type Aliases = map<string, Alias>

  datatype Index = Index(docs: Documents, blocked: bool, aliases: Aliases, shards: nat)
  type Indexes = map<Name, Index>

  const REINDEX := "__reindex"

  function Temp(n: Name): Name { n + REINDEX }

  predicate Temporary(n: Name) {
    |n| >= |REINDEX| && n[|n| - |REINDEX|..] == REINDEX
  }

  lemma TempFacts(n: Name)
    ensures Temporary(Temp(n)) && forall m :: Temp(m) == Temp(n) ==> m == n
  {
    assert Temp(n)[|n|..] == REINDEX && Temp(n)[..|n|] == n;
    forall m | Temp(m) == Temp(n) ensures m == n {
      assert Temp(m)[..|m|] == m;
    }
  }

  /** The outcome of a call without a result, and of one with a result. */
  datatype Status = Ok | Raised {
    predicate IsFailure() { Raised? }
    function PropagateFailure(): Status { Raised }
  }

  datatype Reply<+T> = Done(value: T) | Error {
    predicate IsFailure() { Error? }
    function PropagateFailure(): Status { Raised }
    function Extract(): T requires Done? { value }
  }

  // ---------------------------------------------------------------- what writers may change

  /** Writers change the documents of unblocked indexes among `slots`, and nothing else. */
  ghost predicate Interfered(slots: set<Name>, a: Indexes, b: Indexes) {
    && a.Keys == b.Keys
    && forall n :: n in a ==> b[n] == a[n].(docs := b[n].docs) && (n !in slots || a[n].blocked ==> b[n] == a[n])
  }

  lemma InterferedTwice(slots: set<Name>, a: Indexes, b: Indexes, c: Indexes)
    requires Interfered(slots, a, b) && Interfered(slots, b, c)
    ensures Interfered(slots, a, c)
  {
  }

  /** Outside `except`, indexes stay as they are but for what writers store in them. */
  ghost predicate Kept(a: Indexes, b: Indexes, except: set<Name>) {
    forall m :: m !in except ==>
      (m in a <==> m in b) && (m in a && m in b ==> b[m] == a[m].(docs := b[m].docs))
  }

  // ---------------------------------------------------------------- document survival

  /** The documents of one slot: those of its index, else those of its leftover reindex target. */
  function Content(indexes: Indexes, n: Name): Documents {
    if n in indexes then indexes[n].docs
    else if Temp(n) in indexes then indexes[Temp(n)].docs
    else map[]
  }

  /** Every slot still holds exactly what its writers were acknowledged. */
  ghost predicate SafeIn(slots: set<Name>, indexes: Indexes, ledger: map<Name, Documents>) {
    forall n :: n in slots ==> n in ledger && Content(indexes, n) == ledger[n]
  }

  // ---------------------------------------------------------------- alias actions

  datatype Action =
    | Add(index: Name, alias: string, data: Alias)
    | Remove(index: Name, alias: string)
    | RemoveIndex(index: Name)

  /** One alias action; it needs its index, and `remove` needs its alias. */
  function Act(indexes: Indexes, action: Action): Option<Indexes> {
    var n := action.index;
    if n !in indexes then None
    else match action
      case Add(_, alias, data) => Some(indexes[n := indexes[n].(aliases := indexes[n].aliases[alias := data])])
      case Remove(_, alias) =>
        if alias !in indexes[n].aliases then None
        else Some(indexes[n := indexes[n].(aliases := indexes[n].aliases - {alias})])
      case RemoveIndex(_) => Some(indexes - {n})
  }

  /** `update_aliases`: all actions in one step, or none. */
  function ActAll(indexes: Indexes, actions: seq<Action>): Option<Indexes> {
    if actions == [] then Some(indexes)
    else
      var before := ActAll(indexes, actions[..|actions| - 1]);
      if before.None? then None else Act(before.value, actions[|actions| - 1])
  }

  function Carriers(m: Indexes, alias: string): map<Name, Alias> {
    map n | n in m && alias in m[n].aliases :: m[n].aliases[alias]
  }

  /** What a reindex task reports. */
  datatype Report = Report(failures: nat, conflicts: nat)

  /** A copy with nothing to report that left out no document of the source. */
  ghost predicate Faithful(before: Indexes, after: Indexes, source: Name, target: Name, report: Report)
    requires source in before && target in before && target in after
  {
    report == Report(0, 0) && after[target].docs == before[target].docs + before[source].docs
  }

  class Elastic {
    /** The physical indexes writers address. None of them is a reindex target. */
    const slots: set<Name>
    var indexes: Indexes
    /** What writers were acknowledged, slot by slot. */
    ghost var ledger: map<Name, Documents>
    /** Whether every state since the start was safe. */
    ghost var alwaysSafe: bool
    /** The indexes as the last call found them, after the writers' turn. */
    ghost var seen: Indexes
    /** How many calls raised although nothing was wrong with them, and how many copies left out a document or
        reported a failure or a conflict. */
    ghost var faults: nat
    ghost var losses: nat
    /** The documents of each index when it was last write-blocked. */
    ghost var frozen: map<Name, Documents>

    constructor (slots: set<Name>, indexes: Indexes)
      requires forall n :: n in slots ==> !Temporary(n)
      ensures this.slots == slots && this.indexes == indexes && Valid() && Sound()
    {
      this.slots, this.indexes := slots, indexes;
      ledger, alwaysSafe, seen := map n | n in slots :: Content(indexes, n), true, indexes;
      faults, losses, frozen := 0, 0, map[];
    }

    ghost predicate Valid()
      reads this
    {
      forall n :: n in slots ==> n in ledger && !Temporary(n)
    }

    ghost predicate Safe()
      reads this
    {
      SafeIn(slots, indexes, ledger)
    }

    /** Every acknowledged document is, and always was, in some existing index. */
    ghost predicate Sound()
      reads this
    {
      Safe() && alwaysSafe
    }

    /** A writer stores or deletes one document; a blocked or missing index refuses it. */
    method Write(index: Name, id: string, doc: Option<string>)
      requires Valid()
      modifies this`indexes, this`ledger
      ensures Valid() && Interfered(slots, old(indexes), indexes)
      ensures old(Safe()) ==> Safe()
    {
      if index in slots && index in indexes && !indexes[index].blocked {
        var docs := indexes[index].docs;
        var written := if doc.Some? then docs[id := doc.value] else docs - {id};
        indexes := indexes[index := indexes[index].(docs := written)];
        ledger := ledger[index := if doc.Some? then ledger[index][id := doc.value] else ledger[index] - {id}];
        WriteIsSafe(old(indexes), indexes, old(ledger), ledger, index);
      }
    }

    lemma WriteIsSafe(a: Indexes, b: Indexes, before: map<Name, Documents>, after: map<Name, Documents>, index: Name)
      requires Valid() && index in slots && index in a && a.Keys == b.Keys && index in before && index in after
      requires forall n :: n in a && n != index ==> b[n] == a[n]
      requires before.Keys == after.Keys && forall n :: n in before && n != index ==> before[n] == after[n]
      requires a[index].docs == before[index] ==> b[index].docs == after[index]
      ensures SafeIn(slots, a, before) ==> SafeIn(slots, b, after)
    {
      forall n | n in slots && SafeIn(slots, a, before) && n in before
        ensures n in after && Content(b, n) == after[n]
      {
        TempFacts(n);
        assert Content(a, n) == before[n];
      }
    }

    /** Any number of writers take their turn. */
    method Writers()
      requires Valid()
      modifies this`indexes, this`ledger, this`alwaysSafe, this`seen
      ensures seen == indexes
      ensures Valid() && Interfered(slots, old(indexes), indexes)
      ensures old(Sound()) ==> Sound()
      ensures alwaysSafe ==> old(alwaysSafe)
    {
      var writes: int := *;
      while writes > 0
        invariant Valid() && Interfered(slots, old(indexes), indexes)
        invariant old(Sound()) ==> Sound()
        invariant alwaysSafe ==> old(alwaysSafe)
      {
        var index: Name, id: string, doc: Option<string> := *, *, *;
        ghost var before := indexes;
        Write(index, id, doc);
        InterferedTwice(slots, old(indexes), before, indexes);
        alwaysSafe := alwaysSafe && Safe();
        writes := writes - 1;
      }
      seen := indexes;
    }

    /** While its source exists, what a reindex target holds does not matter to any slot. */
    lemma TargetUnread(source: Name, a: Indexes, docs: Documents)
      requires Valid() && source in slots && source in a && Temp(source) in a
      ensures forall n :: n in slots ==> Content(a[Temp(source) := a[Temp(source)].(docs := docs)], n) == Content(a, n)
    {
      TempFacts(source);
    }

    // -------------------------------------------------------------- calls that change nothing

    /** `refresh`, `clear_cache`, waiting for a status, or polling a task. */
    method Touch() returns (r: Status)
      requires Valid()
      modifies this`indexes, this`ledger, this`alwaysSafe, this`seen, this`faults
      ensures Valid() && Interfered(slots, old(indexes), indexes)
      ensures old(Sound()) ==> Sound()
      ensures faults == old(faults) + if r.Raised? then 1 else 0
    {
      Writers();
      var fails: bool := *;
      if fails {
        faults := faults + 1;
        return Raised;
      }
      return Ok;
    }

    method Exists(index: Name) returns (r: Reply<bool>)
      requires Valid()
      modifies this`indexes, this`ledger, this`alwaysSafe, this`seen, this`faults
      ensures Valid() && Interfered(slots, old(indexes), indexes)
      ensures old(Sound()) ==> Sound()
      ensures r.Done? ==> (r.value <==> index in indexes)
      ensures faults == old(faults) + if r.Error? then 1 else 0
    {
      Writers();
      var fails: bool := *;
      if fails {
        faults := faults + 1;
        return Error;
      }
      return Done(index in indexes);
    }

    /** The aliases of an index, from its full description. */
    method GetAliases(index: Name) returns (r: Reply<Aliases>)
      requires Valid()
      modifies this`indexes, this`ledger, this`alwaysSafe, this`seen, this`faults
      ensures Valid() && Interfered(slots, old(indexes), indexes)
      ensures old(Sound()) ==> Sound()
      ensures r.Done? ==> index in indexes && r.value == indexes[index].aliases
      ensures faults == old(faults) + if r.Error? && index in indexes then 1 else 0
    {
      Writers();
      var fails: bool := *;
      if index !in indexes { return Error; }
      if fails {
        faults := faults + 1;
        return Error;
      }
      return Done(indexes[index].aliases);
    }

    method Count(index: Name) returns (r: Reply<nat>)
      requires Valid()
      modifies this`indexes, this`ledger, this`alwaysSafe, this`seen, this`faults
      ensures Valid() && Interfered(slots, old(indexes), indexes)
      ensures old(Sound()) ==> Sound()
      ensures r.Done? ==> index in indexes && r.value == |indexes[index].docs|
      ensures faults == old(faults) + if r.Error? && index in indexes then 1 else 0
    {
      Writers();
      var fails: bool := *;
      if index !in indexes { return Error; }
      if fails {
        faults := faults + 1;
        return Error;
      }
      return Done(|indexes[index].docs|);
    }

    /** The names of the indexes that match `prefix*`. */
    method ListMatching(prefix: string) returns (r: Reply<set<Name>>)
      requires Valid()
      modifies this`indexes, this`ledger, this`alwaysSafe, this`seen, this`faults
      ensures Valid() && Interfered(slots, old(indexes), indexes)
      ensures old(Sound()) ==> Sound()
      ensures r.Done? ==> r.value == set n | n in indexes && prefix <= n
      ensures faults == old(faults) + if r.Error? then 1 else 0
    {
      Writers();
      var fails: bool := *;
      if fails {
        faults := faults + 1;
        return Error;
      }
      return Done(set n | n in indexes && prefix <= n);
    }

    /** The indexes that carry an alias, with its data; none when the alias does not exist. */
    method GetAlias(alias: string) returns (r: Reply<map<Name, Alias>>)
      requires Valid()
      modifies this`indexes, this`ledger, this`alwaysSafe, this`seen, this`faults
      ensures Valid() && Interfered(slots, old(indexes), indexes)
      ensures old(Sound()) ==> Sound()
      ensures r.Done? ==> r.value == Carriers(indexes, alias)
      ensures faults == old(faults) + if r.Error? then 1 else 0
    {
      Writers();
      var fails: bool := *;
      if fails {
        faults := faults + 1;
        return Error;
      }
      return Done(Carriers(indexes, alias));
    }

    // -------------------------------------------------------------- calls that change the cluster

    /** Set or clear the write block of one index. */
    method PutBlock(index: Name, blocked: bool) returns (r: Status)
      requires Valid()
      modifies this`indexes, this`ledger, this`alwaysSafe, this`seen, this`faults, this`frozen
      ensures Valid() && Interfered(slots, old(indexes), seen)
      ensures old(Sound()) ==> Sound()
      ensures r.Raised? ==> indexes == seen
      ensures r.Ok? ==> index in seen && indexes == seen[index := seen[index].(blocked := blocked)]
      ensures frozen == if r.Ok? && blocked then old(frozen)[index := seen[index].docs] else old(frozen)
      ensures faults == old(faults) + if r.Raised? && index in seen then 1 else 0
    {
      Writers();
      var fails: bool := *;
      if index !in indexes { return Raised; }
      if fails {
        faults := faults + 1;
        return Raised;
      }
      if blocked {
        frozen := frozen[index := indexes[index].docs];
      }
      indexes := indexes[index := indexes[index].(blocked := blocked)];
      assert forall n :: Content(indexes, n) == Content(seen, n);
      return Ok;
    }

    /** Create an empty index. */
    method Create(index: Name, shards: nat) returns (r: Status)
      requires Valid() && Temporary(index)
      modifies this`indexes, this`ledger, this`alwaysSafe, this`seen, this`faults
      ensures Valid() && Interfered(slots, old(indexes), seen)
      ensures old(Sound()) ==> Sound()
      ensures r.Raised? ==> indexes == seen
      ensures r.Ok? ==> index !in seen && indexes == seen[index := Index(map[], false, map[], shards)]
      ensures faults == old(faults) + if r.Raised? && index !in seen then 1 else 0
    {
      Writers();
      var fails: bool := *;
      if index in indexes { return Raised; }
      if fails {
        faults := faults + 1;
        return Raised;
      }
      indexes := indexes[index := Index(map[], false, map[], shards)];
      assert forall n :: n in slots ==> Content(indexes, n) == Content(seen, n);
      return Ok;
    }

    /** Create an empty index with aliases; the exception tells when the index is there already. */
    method CreateAliased(index: Name, shards: nat, aliases: Aliases) returns (r: Status, there: bool)
      requires Valid()
      modifies this`indexes, this`ledger, this`alwaysSafe, this`seen, this`faults
      ensures Valid() && Interfered(slots, old(indexes), seen)
      ensures old(Sound()) ==> SafeIn(slots, seen, ledger) && (alwaysSafe <==> Safe())
      ensures r.Raised? ==> indexes == seen
      ensures r.Ok? ==> index !in seen && indexes == seen[index := Index(map[], false, aliases, shards)]
      ensures there ==> r.Raised? && index in seen
      ensures faults == old(faults) + if r.Raised? && !there then 1 else 0
    {
      Writers();
      var fails: bool := *;
      if fails {
        faults := faults + 1;
        return Raised, false;
      }
      if index in indexes { return Raised, true; }
      indexes := indexes[index := Index(map[], false, aliases, shards)];
      alwaysSafe := alwaysSafe && Safe();
      return Ok, false;
    }

    /** Submit a reindex task: an arbitrary part of the source documents reaches the target. */
    method Copy(source: Name, target: Name) returns (r: Reply<Report>)
      requires Valid() && target == Temp(source) && source in slots
      modifies this`indexes, this`ledger, this`alwaysSafe, this`seen, this`faults, this`losses
      ensures Valid() && Interfered(slots, old(indexes), seen)
      ensures old(Sound()) ==> Sound()
      ensures r.Error? ==> indexes == seen
      ensures r.Done? ==>
        && source in seen && target in seen && target in indexes
        && indexes == seen[target := seen[target].(docs := indexes[target].docs)]
        && forall k :: k in indexes[target].docs ==>
             || (k in seen[source].docs && indexes[target].docs[k] == seen[source].docs[k])
             || (k in seen[target].docs && indexes[target].docs[k] == seen[target].docs[k])
      ensures losses == old(losses) + if r.Done? && !Faithful(seen, indexes, source, target, r.value) then 1 else 0
      ensures faults == old(faults) + if r.Error? && source in seen && target in seen then 1 else 0
    {
      Writers();
      var fails: bool := *;
      if source !in indexes || target !in indexes { return Error; }
      if fails {
        faults := faults + 1;
        return Error;
      }
      var chosen: set<string> := *;
      var docs := indexes[source].docs;
      var copied := map k | k in docs && k in chosen :: docs[k];
      TargetUnread(source, indexes, indexes[target].docs + copied);
      indexes := indexes[target := indexes[target].(docs := indexes[target].docs + copied)];
      var failures: int, conflicts: int := *, *;
      r := Done(Report(if failures < 0 then 0 else failures, if conflicts < 0 then 0 else conflicts));
      if !Faithful(seen, indexes, source, target, r.value) {
        losses := losses + 1;
      }
    }

    method Delete(index: Name) returns (r: Status)
      requires Valid()
      modifies this`indexes, this`ledger, this`alwaysSafe, this`seen, this`faults
      ensures Valid() && Interfered(slots, old(indexes), seen)
      ensures old(Sound()) ==> SafeIn(slots, seen, ledger) && (alwaysSafe <==> Safe())
      ensures r.Raised? ==> indexes == seen
      ensures r.Ok? ==> index in seen && indexes == seen - {index}
      ensures faults == old(faults) + if r.Raised? && index in seen then 1 else 0
    {
      Writers();
      var fails: bool := *;
      if index !in indexes { return Raised; }
      if fails {
        faults := faults + 1;
        return Raised;
      }
      indexes := indexes - {index};
      alwaysSafe := alwaysSafe && Safe();
      return Ok;
    }

    /** Clone a write-blocked index under a new name; the clone inherits the block and no alias. */
    method Clone(source: Name, target: Name) returns (r: Status)
      requires Valid()
      modifies this`indexes, this`ledger, this`alwaysSafe, this`seen, this`faults
      ensures Valid() && Interfered(slots, old(indexes), seen)
      ensures old(Sound()) ==> SafeIn(slots, seen, ledger) && (alwaysSafe <==> Safe())
      ensures r.Raised? ==> indexes == seen
      ensures r.Ok? ==>
        && source in seen && seen[source].blocked && target !in seen
        && indexes == seen[target := seen[source].(aliases := map[])]
      ensures faults
           == old(faults) + if r.Raised? && source in seen && seen[source].blocked && target !in seen then 1 else 0
    {
      Writers();
      var fails: bool := *;
      if source !in indexes || target in indexes || !indexes[source].blocked { return Raised; }
      if fails {
        faults := faults + 1;
        return Raised;
      }
      indexes := indexes[target := indexes[source].(aliases := map[])];
      alwaysSafe := alwaysSafe && Safe();
      return Ok;
    }

    method UpdateAliases(actions: seq<Action>) returns (r: Status)
      requires Valid()
      modifies this`indexes, this`ledger, this`alwaysSafe, this`seen, this`faults
      ensures Valid() && Interfered(slots, old(indexes), seen)
      ensures old(Sound()) ==> SafeIn(slots, seen, ledger) && (alwaysSafe <==> Safe())
      ensures r.Raised? ==> indexes == seen
      ensures r.Ok? ==> ActAll(seen, actions) == Some(indexes)
      ensures faults == old(faults) + if r.Raised? && ActAll(seen, actions).Some? then 1 else 0
    {
      Writers();
      var fails: bool := *;
      var after := ActAll(indexes, actions);
      if after.None? { return Raised; }
      if fails {
        faults := faults + 1;
        return Raised;
      }
      indexes := after.value;
      alwaysSafe := alwaysSafe && Safe();
      return Ok;
    }
  }

  /** A method raises only when one of its calls does, and no copy leaves anything out. */
  twostate predicate OnlyFaults(es: Elastic, raised: bool)
    reads es
  {
    es.losses == old(es.losses) && if raised then es.faults > old(es.faults) else es.faults == old(es.faults)
  }
}
