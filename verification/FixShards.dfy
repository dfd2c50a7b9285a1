/** Changing the shard count of a collection with one alias and one physical index: a resumable sequence of copies
    and alias swaps under a datastore-wide write block. */
module FixShards {
  import opened Wrappers
  import opened Elastic

  /** The names of one collection: its alias, its physical index and the temporary copy. */
  datatype Names = Names(alias: string, index: Name, temp: Name)

  /** The names the collection called `alias` uses. */
  function NamesOf(alias: string): (names: Names)
    ensures names.index != names.temp
  {
    var names := Names(alias, alias + "_hot", alias + "__fix_shards");
    assert names.index[|alias| + 1] == 'h' && names.temp[|alias| + 1] == '_';
    names
  }

  // ---------------------------------------------------------------- states

  predicate Aliased(m: Indexes, alias: string, n: Name) {
    n in m && alias in m[n].aliases
  }

  /** The alias names exactly one index, `n`, and that index holds `docs`. */
  ghost predicate Alive(m: Indexes, docs: Documents, names: Names, n: Name) {
    && (forall x :: Aliased(m, names.alias, x) <==> x == n)
    && n in m && m[n].docs == docs && m[n].shards > 0
  }

  function Current(m: Indexes, names: Names): Name {
    if Aliased(m, names.alias, names.temp) then names.temp else names.index
  }

  /** The alias names one of the two indexes of the collection, and the copy, or the index when there is no copy,
      holds `content`: the documents a run would carry over. */
  ghost predicate Carrying(m: Indexes, content: Documents, names: Names) {
    && names.index != names.temp
    && Current(m, names) in m && m[Current(m, names)].shards > 0
    && (forall x :: Aliased(m, names.alias, x) <==> x == Current(m, names))
    && (names.temp in m ==> m[names.temp].docs == content && m[names.temp].shards == m[Current(m, names)].shards)
    && (names.temp !in m ==> m[names.index].docs == content)
  }

  /** What a run that stops may leave: the aliased index has every acknowledged document, so has the copy if there is
      one, and while there is a copy the original is write-blocked. */
  ghost predicate Resumable(m: Indexes, ack: Documents, names: Names) {
    && Carrying(m, ack, names)
    && m[Current(m, names)].docs == ack
    && (names.temp in m && names.index in m ==> m[names.index].blocked)
  }

  /** The collection has its index back: the alias, the target shards, all documents, no copy, and no write block
      anywhere. */
  ghost predicate Finished(m: Indexes, ack: Documents, names: Names, target: nat) {
    && Alive(m, ack, names, names.index) && m[names.index].shards == target
    && names.temp !in m
    && forall x :: x in m ==> !m[x].blocked
  }

  /** Writers of this collection change the documents of its index while it is unblocked, and what was acknowledged
      follows. */
  ghost predicate Written(names: Names, a: Indexes, before: Documents, b: Indexes, after: Documents) {
    var n := names.index;
    if n in a && !a[n].blocked then
      && n in b && b == a[n := a[n].(docs := b[n].docs)]
      && (a[n].docs == before ==> b[n].docs == after)
    else
      a == b && before == after
  }

  predicate Divides(a: nat, b: nat) {
    a > 0 && b % a == 0
  }

  function BlockAll(m: Indexes, blocked: bool): Indexes {
    map x | x in m :: m[x].(blocked := blocked)
  }

  ghost predicate AllBlocked(m: Indexes) {
    forall x :: x in m ==> m[x].blocked
  }

  /** The alias only looks at which indexes carry it. */
  lemma SameAliases(a: Indexes, b: Indexes, names: Names)
    requires a.Keys == b.Keys && forall x :: x in a ==> b[x].aliases == a[x].aliases
    ensures forall x :: Aliased(a, names.alias, x) <==> Aliased(b, names.alias, x)
    ensures Current(a, names) == Current(b, names)
  {
  }

  /** What the writers' turn leaves to carry over: the copy, or the index with what was acknowledged meanwhile. */
  lemma WrittenCarries(names: Names, a: Indexes, before: Documents, b: Indexes, after: Documents, content: Documents)
    requires Written(names, a, before, b, after) && Carrying(a, content, names)
    requires names.temp !in a ==> content == before
    ensures Carrying(b, if names.temp in a then content else after, names)
    ensures names.temp in b <==> names.temp in a
    ensures Current(b, names) == Current(a, names) && b[Current(b, names)].shards == a[Current(a, names)].shards
    ensures Resumable(a, before, names) ==> Resumable(b, after, names)
  {
    SameAliases(a, b, names);
  }

  lemma WrittenTwice(names: Names, a: Indexes, d: Documents, b: Indexes, e: Documents, c: Indexes, f: Documents)
    requires Written(names, a, d, b, e) && Written(names, b, e, c, f)
    ensures Written(names, a, d, c, f)
    ensures forall x :: x in a <==> x in c
    ensures forall x :: x in b && x in c ==> b[x].shards == c[x].shards && b[x].aliases == c[x].aliases
  {
  }

  /** The alias, the copy and the shard count of the aliased index are as they were. */
  ghost predicate SameShape(names: Names, a: Indexes, b: Indexes) {
    && Current(b, names) == Current(a, names) && (names.temp in b <==> names.temp in a)
    && Current(a, names) in a && Current(b, names) in b
    && b[Current(b, names)].shards == a[Current(a, names)].shards
  }

  lemma TurnKeeps(names: Names, a: Indexes, before: Documents, b: Indexes, after: Documents)
    requires Written(names, a, before, b, after)
    ensures Resumable(a, before, names) ==> Resumable(b, after, names) && SameShape(names, a, b)
    ensures forall x :: Aliased(a, names.alias, x) <==> Aliased(b, names.alias, x)
  {
    if Resumable(a, before, names) {
      WrittenCarries(names, a, before, b, after, before);
    }
    SameAliases(a, b, names);
  }

  /** The same with `content` to carry over. */
  lemma TurnHolds(names: Names, a: Indexes, before: Documents, b: Indexes, after: Documents, content: Documents)
    requires Written(names, a, before, b, after)
    ensures Resumable(a, before, names) ==> Resumable(b, after, names)
    ensures Carrying(a, content, names) && (names.temp !in a ==> content == before) ==>
      Carrying(b, if names.temp in b then content else after, names) && SameShape(names, a, b)
    ensures forall x :: Aliased(a, names.alias, x) <==> Aliased(b, names.alias, x)
  {
    if Carrying(a, content, names) && (names.temp !in a ==> content == before) {
      WrittenCarries(names, a, before, b, after, content);
    }
    TurnKeeps(names, a, before, b, after);
    SameAliases(a, b, names);
  }

  lemma BlockingKeeps(names: Names, m: Indexes, content: Documents)
    requires Carrying(m, content, names)
    ensures Carrying(BlockAll(m, true), content, names) && AllBlocked(BlockAll(m, true))
    ensures Current(BlockAll(m, true), names) == Current(m, names)
  {
    SameAliases(m, BlockAll(m, true), names);
  }

  class Store {
    const names: Names
    var indexes: Indexes
    ghost var ack: Documents
    /** The indexes as the last call found them, after the writers' turn. */
    ghost var seen: Indexes
    /** How many calls raised although nothing was wrong with them. */
    ghost var faults: nat

    constructor (alias: string, indexes: Indexes)
      ensures names == NamesOf(alias) && this.indexes == indexes
      ensures names.index in indexes ==> ack == indexes[names.index].docs
    {
      this.names, this.indexes := NamesOf(alias), indexes;
      ack, seen, faults := Content(indexes, NamesOf(alias).index), indexes, 0;
    }

    ghost predicate Safe()
      reads this
    {
      Resumable(indexes, ack, names)
    }

    /** `content` is what a run would carry over. */
    ghost predicate Holds(content: Documents)
      reads this
    {
      Carrying(indexes, content, names) && (names.temp !in indexes ==> content == ack)
    }

    /** Inside the write block, carrying `content`. */
    ghost predicate Carries(content: Documents)
      reads this
    {
      Carrying(indexes, content, names) && AllBlocked(indexes)
    }

    /** The aliased index holds `content`. */
    ghost predicate Serves(content: Documents)
      requires Carrying(indexes, content, names)
      reads this
    {
      indexes[Current(indexes, names)].docs == content
    }

    /** Calls raise only when they are made to, each of them once. */
    twostate predicate OnlyFaults(raised: bool)
      reads this
    {
      faults == old(faults) + if raised then 1 else 0
    }

    /** Any number of writers take their turn. */
    method Writers()
      modifies this
      ensures faults == old(faults)
      ensures Written(names, old(indexes), old(ack), indexes, ack) && seen == indexes
    {
      var n := names.index;
      var writes: int := *;
      while writes > 0
        invariant Written(names, old(indexes), old(ack), indexes, ack) && faults == old(faults)
      {
        var id: string, doc: Option<string> := *, *;
        if n in indexes && !indexes[n].blocked {
          var docs := indexes[n].docs;
          indexes := indexes[n := indexes[n].(docs := if doc.Some? then docs[id := doc.value] else docs - {id})];
          ack := if doc.Some? then ack[id := doc.value] else ack - {id};
        }
        writes := writes - 1;
      }
      seen := indexes;
    }

    method Touch() returns (r: Status)
      modifies this
      ensures OnlyFaults(r.Raised?)
      ensures Written(names, old(indexes), old(ack), indexes, ack)
    {
      Writers();
      var fails: bool := *;
      if fails {
        faults := faults + 1;
        return Raised;
      }
      return Ok;
    }

    method Exists(n: Name) returns (r: Reply<bool>)
      modifies this
      ensures OnlyFaults(r.Error?)
      ensures Written(names, old(indexes), old(ack), indexes, ack)
      ensures r.Done? ==> (r.value <==> n in indexes)
    {
      Writers();
      var fails: bool := *;
      if fails {
        faults := faults + 1;
        return Error;
      }
      return Done(n in indexes);
    }

    /** The shard count of every index. */
    method GetSettings() returns (r: Reply<map<Name, nat>>)
      modifies this
      ensures OnlyFaults(r.Error?)
      ensures Written(names, old(indexes), old(ack), indexes, ack)
      ensures r.Done? ==> r.value == map x | x in indexes :: indexes[x].shards
    {
      Writers();
      var fails: bool := *;
      if fails {
        faults := faults + 1;
        return Error;
      }
      return Done(map x | x in indexes :: indexes[x].shards);
    }

    /** `_get_current_alias`: some index that carries the alias, if any does. */
    method CurrentAlias(alias: string) returns (r: Reply<Option<Name>>)
      modifies this
      ensures OnlyFaults(r.Error?)
      ensures Written(names, old(indexes), old(ack), indexes, ack)
      ensures r == Done(None) ==> forall x :: !Aliased(indexes, alias, x)
      ensures r.Done? && r.value.Some? ==> Aliased(indexes, alias, r.value.value)
    {
      Writers();
      var fails: bool := *;
      if fails {
        faults := faults + 1;
        return Error;
      }
      var carriers := set x | x in indexes && alias in indexes[x].aliases;
      if carriers == {} {
        assert forall x :: Aliased(indexes, alias, x) ==> x in carriers;
        return Done(None);
      }
      var n :| n in carriers;
      return Done(Some(n));
    }

    /** Set or clear the write block of every index of the datastore. */
    method PutBlockAll(blocked: bool) returns (r: Status)
      modifies this
      ensures OnlyFaults(r.Raised?)
      ensures Written(names, old(indexes), old(ack), seen, ack)
      ensures indexes == if r.Ok? then BlockAll(seen, blocked) else seen
    {
      Writers();
      var fails: bool := *;
      if fails {
        faults := faults + 1;
        return Raised;
      }
      indexes := BlockAll(indexes, blocked);
      return Ok;
    }

    /** Clone a write-blocked index; the clone inherits the block and the shard count, and no alias. */
    method Clone(source: Name, target: Name) returns (r: Status)
      modifies this
      ensures OnlyFaults(r.Raised? && source in seen && seen[source].blocked && target !in seen)
      ensures Written(names, old(indexes), old(ack), seen, ack)
      ensures r.Raised? ==> indexes == seen
      ensures r.Ok? ==>
        && source in seen && seen[source].blocked && target !in seen
        && indexes == seen[target := seen[source].(aliases := map[])]
    {
      Writers();
      var fails: bool := *;
      if source !in indexes || target in indexes || !indexes[source].blocked { return Raised; }
      if fails {
        faults := faults + 1;
        return Raised;
      }
      indexes := indexes[target := indexes[source].(aliases := map[])];
      return Ok;
    }

    /** Shrink or split a write-blocked index into a new one. The counts must divide. */
    method Resize(source: Name, target: Name, shards: nat) returns (r: Status)
      requires source in indexes ==> Divides(shards, indexes[source].shards) || Divides(indexes[source].shards, shards)
      modifies this
      ensures OnlyFaults(r.Raised? && source in seen && seen[source].blocked && target !in seen)
      ensures Written(names, old(indexes), old(ack), seen, ack)
      ensures r.Raised? ==> indexes == seen
      ensures r.Ok? ==>
        && source in seen && seen[source].blocked && target !in seen
        && indexes == seen[target := seen[source].(aliases := map[], shards := shards)]
    {
      Writers();
      var fails: bool := *;
      if source !in indexes || target in indexes || !indexes[source].blocked { return Raised; }
      if fails {
        faults := faults + 1;
        return Raised;
      }
      indexes := indexes[target := indexes[source].(aliases := map[], shards := shards)];
      return Ok;
    }

    method Delete(n: Name) returns (r: Status)
      modifies this
      ensures OnlyFaults(r.Raised? && n in seen)
      ensures Written(names, old(indexes), old(ack), seen, ack)
      ensures r.Raised? ==> indexes == seen
      ensures r.Ok? ==> n in seen && indexes == seen - {n}
    {
      Writers();
      var fails: bool := *;
      if n !in indexes { return Raised; }
      if fails {
        faults := faults + 1;
        return Raised;
      }
      indexes := indexes - {n};
      return Ok;
    }

    /** Move the alias to `n` and remove the index it leaves, in one step. */
    method SwapAlias(n: Name, leaving: Name) returns (r: Status)
      requires n != leaving
      modifies this
      ensures OnlyFaults(r.Raised? && n in seen && leaving in seen)
      ensures Written(names, old(indexes), old(ack), seen, ack)
      ensures r.Raised? ==> indexes == seen
      ensures r.Ok? ==>
        && n in seen && leaving in seen
        && indexes == seen[n := seen[n].(aliases := seen[n].aliases[names.alias := Alias(false, "")])] - {leaving}
    {
      Writers();
      var fails: bool := *;
      var actions := [Add(n, names.alias, Alias(false, "")), RemoveIndex(leaving)];
      assert actions[..1] == [actions[0]] && actions[..1][..0] == [];
      assert ActAll(indexes, []) == Some(indexes);
      assert ActAll(indexes, actions[..1]) == Act(indexes, actions[0]);
      var after := ActAll(indexes, actions);
      if after.None? { return Raised; }
      if fails {
        faults := faults + 1;
        return Raised;
      }
      indexes := after.value;
      return Ok;
    }

    // -------------------------------------------------------------- the protocol

    /** Make sure there is a copy: clone the index unless an earlier run did. */
    method EnsureCopy(shrinks: bool, ghost content: Documents) returns (r: Status)
      requires Carries(content)
      modifies this
      ensures OnlyFaults(r.Raised?)
      ensures Carries(content) && ack == old(ack) && (old(Serves(content)) ==> Serves(content))
      ensures indexes[Current(indexes, names)].shards == old(indexes[Current(indexes, names)]).shards
      ensures r.Ok? ==> names.temp in indexes
    {
      var there :- Exists(names.temp);
      if !there {
        if shrinks {
          :- Touch();
          :- Touch();
        }
        :- Clone(names.index, names.temp);
        CopyCarries(seen, content, names);
        :- Touch();
      }
      r := Touch();
    }

    /** Make the copy the alias and remove the original with the swap, unless an earlier run did. */
    method PointAtCopy(ghost content: Documents) returns (r: Status)
      requires Carries(content) && names.temp in indexes
      modifies this
      ensures OnlyFaults(r.Raised?)
      ensures Carries(content) && ack == old(ack) && (old(Serves(content)) ==> Serves(content))
      ensures r.Ok? ==> Aliased(indexes, names.alias, names.temp)
      ensures names.temp in indexes && indexes[names.temp].shards == old(indexes)[names.temp].shards
    {
      var current :- CurrentAlias(names.alias);
      if current != Some(names.temp) {
        :- SwapAlias(names.temp, names.index);
        CopyTakesOver(old(indexes), content, names, indexes);
      }
      return Ok;
    }

    /** Remove what is left under the original name. */
    method DropOriginal(ghost content: Documents) returns (r: Status)
      requires Carries(content) && Aliased(indexes, names.alias, names.temp)
      modifies this
      ensures OnlyFaults(r.Raised?)
      ensures Carries(content) && ack == old(ack) && Aliased(indexes, names.alias, names.temp)
      ensures r.Ok? ==> names.index !in indexes
      ensures indexes[names.temp] == old(indexes)[names.temp]
    {
      var there :- Exists(names.index);
      if there {
        :- Delete(names.index);
        assert forall x :: Aliased(indexes, names.alias, x) <==> Aliased(seen, names.alias, x);
      }
      return Ok;
    }

    /** Shrink or split the copy into the original name. */
    method Rebuild(target: nat, ghost content: Documents) returns (r: Status)
      requires Carries(content) && Aliased(indexes, names.alias, names.temp) && names.index !in indexes
      requires Divides(target, indexes[names.temp].shards) || Divides(indexes[names.temp].shards, target)
      modifies this
      ensures OnlyFaults(r.Raised?)
      ensures Carries(content) && ack == old(ack) && Aliased(indexes, names.alias, names.temp)
      ensures r.Ok? ==>
        names.index in indexes && indexes[names.index].docs == content && indexes[names.index].shards == target
      ensures indexes[names.temp] == old(indexes)[names.temp]
    {
      r := Resize(names.temp, names.index, target);
      if r.Raised? { return; }
      assert forall x :: Aliased(indexes, names.alias, x) <==> Aliased(seen, names.alias, x);
      r := Touch();
    }

    /** Make the rebuilt index the alias and remove the copy with the swap. */
    method PointAtIndex(target: nat, ghost content: Documents) returns (r: Status)
      requires Carries(content) && Aliased(indexes, names.alias, names.temp) && target > 0
      requires names.index in indexes && indexes[names.index].docs == content && indexes[names.index].shards == target
      modifies this
      ensures OnlyFaults(r.Raised?)
      ensures Carries(content) && Serves(content) && ack == old(ack)
      ensures names.temp in indexes ==> indexes == old(indexes)
      ensures r.Ok? ==>
        Alive(indexes, content, names, names.index) && names.temp !in indexes && indexes[names.index].shards == target
    {
      r := SwapAlias(names.index, names.temp);
      if r.Raised? { return; }
      IndexTakesOver(old(indexes), content, names, indexes);
    }

    /** Everything done under the write block. */
    method MoveBlocked(target: nat, shrinks: bool, ghost content: Documents) returns (r: Status)
      requires Carries(content) && target > 0
      requires var shards := indexes[Current(indexes, names)].shards; Divides(target, shards) || Divides(shards, target)
      modifies this
      ensures OnlyFaults(r.Raised?)
      ensures Carries(content) && ack == old(ack) && (old(Serves(content)) ==> Serves(content))
      ensures names.temp in indexes ==>
        indexes[Current(indexes, names)].shards == old(indexes[Current(indexes, names)]).shards
      ensures r.Ok? ==>
        Alive(indexes, content, names, names.index) && names.temp !in indexes && indexes[names.index].shards == target
    {
      r := EnsureCopy(shrinks, content);
      if r.Raised? { return; }
      :- PointAtCopy(content);
      :- DropOriginal(content);
      :- Rebuild(target, content);
      r := PointAtIndex(target, content);
    }

    /** The part of the run between blocking and unblocking writes. A copy that is already there wins: its documents
        end up in the index, whatever was acknowledged meanwhile. */
    method Move(target: nat, shrinks: bool, ghost content: Documents) returns (r: Status)
      requires Carrying(indexes, content, names) && (names.temp !in indexes ==> content == ack) && target > 0
      requires var shards := indexes[Current(indexes, names)].shards; Divides(target, shards) || Divides(shards, target)
      modifies this
      ensures OnlyFaults(r.Raised?)
      ensures old(Safe()) ==> Safe()
      ensures Current(indexes, names) in indexes
      ensures names.temp in indexes ==>
        indexes[Current(indexes, names)].shards == old(indexes[Current(indexes, names)]).shards
      ensures r.Ok? ==>
        && Alive(indexes, if old(names.temp in indexes) then content else ack, names, names.index)
        && names.temp !in indexes && indexes[names.index].shards == target && AllBlocked(indexes)
    {
      ghost var start, before := indexes, ack;
      r := Touch();
      WrittenCarries(names, start, before, indexes, ack, content);
      if r.Raised? { return; }
      ghost var mid, acked := indexes, ack;
      ghost var carried := if names.temp in start then content else acked;
      r := PutBlockAll(true);
      WrittenCarries(names, mid, acked, seen, ack, carried);
      if r.Raised? { return; }
      carried := if names.temp in start then content else ack;
      BlockingKeeps(names, seen, carried);
      assert old(Safe()) ==> carried == ack && Serves(carried);
      r := MoveBlocked(target, shrinks, carried);
    }

    // -------------------------------------------------------------- the run

    /** `fix_shards`. It completes with everything restored from wherever an earlier run stopped, unless the aliased
        index has the target count already while a copy is left, which it takes for nothing to do: then it leaves the
        copy, and lifts the block. */
    method FixShards(target: nat) returns (r: Result)
      requires target > 0 && (Safe() || forall x :: !Aliased(indexes, names.alias, x))
      modifies this
      ensures old(Safe()) ==> OnlyFaults(r == Failed)
      ensures old(Safe()) && faults == old(faults) ==>
        r == if Divisible(old(indexes), names, target) then Completed else Aborted
      ensures old(Safe()) && !HousekeepingWithCopy(old(indexes), names, target) ==>
        Safe() && !HousekeepingWithCopy(indexes, names, target)
      ensures old(Safe()) && HousekeepingWithCopy(old(indexes), names, target) ==>
        Carrying(indexes, old(ack), names) && SameShape(names, old(indexes), indexes)
      ensures !old(Safe()) ==> r == Failed && Written(names, old(indexes), old(ack), indexes, ack)
      ensures r == Aborted ==>
        !Divisible(old(indexes), names, target) && Written(names, old(indexes), old(ack), indexes, ack)
      ensures r == Completed ==>
        && Divisible(old(indexes), names, target)
        && (Finished(indexes, ack, names, target) <==> !HousekeepingWithCopy(old(indexes), names, target))
    {
      assert Carrying(indexes, ack, names) ==> Aliased(indexes, names.alias, Current(indexes, names));
      r := Relocate(target, ack);
      if r != Completed { return; }
      r := RestoreWrites();
    }

    /** The run up to lifting the write block, with `content` to carry over. */
    method Relocate(target: nat, ghost content: Documents) returns (r: Result)
      requires target > 0 && (Holds(content) || forall x :: !Aliased(indexes, names.alias, x))
      modifies this
      ensures old(Holds(content)) ==> OnlyFaults(r == Failed)
      ensures faults >= old(faults)
      ensures old(Safe()) && content == old(ack) ==> Safe()
      ensures Carrying(old(indexes), content, names) && HousekeepingWithCopy(old(indexes), names, target) ==>
        Carrying(indexes, content, names) && SameShape(names, old(indexes), indexes)
      ensures !Carrying(old(indexes), content, names) ==>
        r == Failed && Written(names, old(indexes), old(ack), indexes, ack)
      ensures r == Aborted ==>
        !Divisible(old(indexes), names, target) && Written(names, old(indexes), old(ack), indexes, ack)
      ensures Carrying(old(indexes), content, names) && !HousekeepingWithCopy(old(indexes), names, target) ==>
        Current(indexes, names) in indexes && !HousekeepingWithCopy(indexes, names, target)
      ensures r == Completed ==>
        && Divisible(old(indexes), names, target)
        && indexes[Current(indexes, names)].shards == target
        && (HousekeepingWithCopy(old(indexes), names, target) || names.temp !in indexes)
      ensures r == Completed && old(names.temp in indexes) && !HousekeepingWithCopy(old(indexes), names, target) ==>
        Alive(indexes, content, names, names.index)
    {
      var reply := CurrentShards(content);
      if reply.Error? { return Failed; }
      var shards := reply.value;
      if shards > target && shards % target != 0 { return Aborted; }
      if shards < target && target % shards != 0 { return Aborted; }
      r := MoveUnlessThere(target, shards, if names.temp in indexes then content else ack);
    }

    /** Nothing is moved when the count is the target already. */
    method MoveUnlessThere(target: nat, shards: nat, ghost content: Documents) returns (r: Result)
      requires Holds(content) && target > 0 && shards == indexes[Current(indexes, names)].shards
      requires Divides(target, shards) || Divides(shards, target)
      modifies this
      ensures OnlyFaults(r == Failed)
      ensures old(Safe()) ==> Safe()
      ensures shards == target ==> indexes == old(indexes) && ack == old(ack)
      ensures shards != target ==>
        Current(indexes, names) in indexes && !HousekeepingWithCopy(indexes, names, target)
      ensures r == Completed ==>
        && indexes[Current(indexes, names)].shards == target
        && (shards == target || names.temp !in indexes)
      ensures r == Completed && shards != target && old(names.temp in indexes) ==>
        Alive(indexes, content, names, names.index)
      ensures r != Aborted
    {
      if shards == target { return Completed; }
      var status := Move(target, shards > target, content);
      r := if status.Raised? then Failed else Completed;
    }

    /** The shard count of the aliased index. */
    method CurrentShards(ghost content: Documents) returns (r: Reply<nat>)
      requires Holds(content) || forall x :: !Aliased(indexes, names.alias, x)
      modifies this
      ensures old(Holds(content)) ==> OnlyFaults(r.Error?)
      ensures faults >= old(faults)
      ensures Written(names, old(indexes), old(ack), indexes, ack)
      ensures old(Safe()) ==> Safe()
      ensures old(Holds(content)) ==>
        Holds(if names.temp in indexes then content else ack) && SameShape(names, old(indexes), indexes)
      ensures r.Done? ==> old(Holds(content)) && r.value == old(indexes)[old(Current(indexes, names))].shards
    {
      ghost var start, before := indexes, ack;
      var settings := GetSettings();
      if settings.Error? {
        TurnHolds(names, start, before, indexes, ack, content);
        return Error;
      }
      ghost var mid, acked := indexes, ack;
      var current := CurrentAlias(names.alias);
      WrittenTwice(names, start, before, mid, acked, indexes, ack);
      TurnHolds(names, start, before, indexes, ack, content);
      assert old(Holds(content)) ==> Aliased(indexes, names.alias, Current(indexes, names));
      if current.Error? || current.value.None? || current.value.value !in settings.value { return Error; }
      return Done(settings.value[current.value.value]);
    }

    /** A run towards one count that meets a copy and takes it for housekeeping, then writers, then a run towards
        another count: when that one has moved everything, the index holds what was acknowledged before the first.
        All documents survive exactly when nothing was acknowledged in between. */
    method TwoTargets(first: nat, second: nat) returns (r: Result)
      requires Safe() && first > 0 && HousekeepingWithCopy(indexes, names, first) && second > 0 && second != first
      modifies this
      ensures r == Failed ==> faults > old(faults)
      ensures r == Aborted ==> second % first != 0 && first % second != 0
      ensures r == Completed ==>
        && Alive(indexes, old(ack), names, names.index) && names.temp !in indexes
        && (indexes[names.index].docs == ack <==> ack == old(ack))
    {
      ghost var content := ack;
      var _ := FixShards(first);
      ghost var start, before := indexes, ack;
      Writers();
      WrittenCarries(names, start, before, indexes, ack, content);
      r := Relocate(second, content);
    }

    /** Runs towards any counts keep every acknowledged document, up to the first that would meet a copy and the
        count it is after. */
    method RunAll(targets: seq<nat>) returns (n: nat)
      requires Safe() && forall t :: t in targets ==> t > 0
      modifies this
      ensures Safe() && n <= |targets|
      ensures n < |targets| ==> HousekeepingWithCopy(indexes, names, targets[n])
    {
      n := 0;
      while n < |targets|
        invariant Safe() && n <= |targets|
      {
        if HousekeepingWithCopy(indexes, names, targets[n]) { return; }
        assert targets[n] in targets;
        var _ := FixShards(targets[n]);
        n := n + 1;
      }
    }

    /** Any number of runs towards one shard count, each stopping where it will: the aliased index has every
        acknowledged document all along, and the first run to complete restores everything. */
    method Rerun(target: nat, runs: nat) returns (completed: bool)
      requires target > 0 && Safe() && !HousekeepingWithCopy(indexes, names, target)
      modifies this
      ensures !completed && runs > 0 && Divisible(old(indexes), names, target) ==> faults > old(faults)
      ensures Safe() && !HousekeepingWithCopy(indexes, names, target)
      ensures completed ==> Finished(indexes, ack, names, target)
    {
      completed := false;
      for k := 0 to runs
        invariant Safe() && !HousekeepingWithCopy(indexes, names, target)
        invariant k == 0 ==> indexes == old(indexes) && faults == old(faults)
        invariant k > 0 && Divisible(old(indexes), names, target) ==> faults > old(faults)
      {
        var r := FixShards(target);
        if r == Completed { return true; }
      }
    }

    /** Lift the datastore-wide block and restore the settings of the aliased index. */
    method RestoreWrites() returns (r: Result)
      requires Safe()
      modifies this
      ensures OnlyFaults(r == Failed)
      ensures names.temp !in old(indexes) ==> Safe() && names.temp !in indexes
      ensures names.temp in old(indexes) ==>
        Carrying(indexes, old(ack), names) && SameShape(names, old(indexes), indexes)
      ensures r == Completed ==>
        (forall x :: x in indexes ==> !indexes[x].blocked) && SameShape(names, old(indexes), indexes)
      ensures r != Aborted
    {
      ghost var start, before := indexes, ack;
      var status := PutBlockAll(false);
      TurnKeeps(names, start, before, seen, ack);
      CopyStays(names, start, before, seen, ack);
      if status.Raised? { return Failed; }
      UnblockingKeeps(names, seen, ack, before);
      ghost var found, mid, acked := seen, indexes, ack;
      status := Touch();
      TurnKeeps(names, mid, acked, indexes, ack);
      CopyCarriedOn(names, mid, acked, indexes, ack, before);
      ShapeTwice(names, start, found, mid, indexes, acked, ack);
      return if status.Raised? then Failed else Completed;
    }
  }

  lemma CopyStays(names: Names, a: Indexes, before: Documents, b: Indexes, after: Documents)
    requires Written(names, a, before, b, after) && Resumable(a, before, names)
    ensures names.temp in a ==> Carrying(b, before, names)
  {
    WrittenCarries(names, a, before, b, after, before);
  }

  lemma CopyCarriedOn(names: Names, a: Indexes, before: Documents, b: Indexes, after: Documents, content: Documents)
    requires Written(names, a, before, b, after)
    ensures names.temp in a && Carrying(a, content, names) ==> Carrying(b, content, names)
  {
    if names.temp in a && Carrying(a, content, names) {
      WrittenCarries(names, a, before, b, after, content);
    }
  }

  lemma UnblockingKeeps(names: Names, m: Indexes, ack: Documents, content: Documents)
    requires Resumable(m, ack, names)
    ensures Carrying(m, content, names) ==> Carrying(BlockAll(m, false), content, names)
    ensures SameShape(names, m, BlockAll(m, false))
    ensures names.temp !in m ==> Resumable(BlockAll(m, false), ack, names)
  {
    SameAliases(m, BlockAll(m, false), names);
  }

  lemma ShapeTwice(names: Names, a: Indexes, b: Indexes, c: Indexes, d: Indexes, before: Documents, after: Documents)
    requires SameShape(names, a, b) && SameShape(names, b, c) && Written(names, c, before, d, after)
    ensures SameShape(names, a, d)
  {
    SameAliases(c, d, names);
  }

  datatype Result = Completed | Aborted | Failed

  /** One shard count divides the other. */
  ghost predicate Divisible(m: Indexes, names: Names, target: nat) {
    var n := Current(m, names);
    n in m && (Divides(target, m[n].shards) || Divides(m[n].shards, target))
  }

  /** The aliased index has the target count already, yet a copy is there: the run takes it for housekeeping. */
  predicate HousekeepingWithCopy(m: Indexes, names: Names, target: nat) {
    var n := Current(m, names);
    names.temp in m && n in m && m[n].shards == target
  }

  lemma CopyTakesOver(m: Indexes, content: Documents, names: Names, after: Indexes)
    requires Carrying(m, content, names) && AllBlocked(m) && names.temp in m && !Aliased(m, names.alias, names.temp)
    requires var now := m[names.temp].(aliases := m[names.temp].aliases[names.alias := Alias(false, "")]);
             after == m[names.temp := now] - {names.index}
    ensures Carrying(after, content, names) && AllBlocked(after) && Aliased(after, names.alias, names.temp)
  {
    forall x ensures Aliased(after, names.alias, x) <==> x == names.temp {
      assert Aliased(m, names.alias, x) <==> x == names.index;
    }
  }

  lemma IndexTakesOver(m: Indexes, content: Documents, names: Names, after: Indexes)
    requires Carrying(m, content, names) && AllBlocked(m) && Aliased(m, names.alias, names.temp)
    requires names.index in m && m[names.index].docs == content && m[names.index].shards > 0
    requires var now := m[names.index].(aliases := m[names.index].aliases[names.alias := Alias(false, "")]);
             after == m[names.index := now] - {names.temp}
    ensures Carrying(after, content, names) && AllBlocked(after) && Alive(after, content, names, names.index)
    ensures Current(after, names) == names.index
  {
    forall x ensures Aliased(after, names.alias, x) <==> x == names.index {
      assert Aliased(m, names.alias, x) <==> x == names.temp;
    }
  }

  lemma CopyCarries(m: Indexes, content: Documents, names: Names)
    requires Carrying(m, content, names) && AllBlocked(m) && names.temp !in m
    ensures var after := m[names.temp := m[names.index].(aliases := map[])];
            && Carrying(after, content, names) && AllBlocked(after)
            && Current(after, names) == Current(m, names) == names.index
  {
    var after := m[names.temp := m[names.index].(aliases := map[])];
    assert !Aliased(m, names.alias, names.temp);
    assert forall x :: Aliased(after, names.alias, x) <==> Aliased(m, names.alias, x);
  }

  /** A resumable state, the one right after a run towards another count made its copy, in which a run towards
      `target` meets that copy. */
  lemma HousekeepingStarts(names: Names, docs: Documents, target: nat) returns (m: Indexes)
    requires names.index != names.temp && target > 0
    ensures Resumable(m, docs, names) && HousekeepingWithCopy(m, names, target)
  {
    var original := Index(docs, true, map[names.alias := Alias(false, "")], target);
    m := map[names.index := original, names.temp := original.(aliases := map[])];
    assert forall x :: Aliased(m, names.alias, x) <==> x == names.index;
  }
}
