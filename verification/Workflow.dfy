/** The workflow helper: its table of transitions, and the update operations of one transition merged key by key. */
module Workflow {
  import opened Wrappers
  import opened Script

  // ---------------------------------------------------------------- transitions

  datatype From = Any | One(status: string) | Many(statuses: seq<string>)

  /** `actions` names functions that yield update operations or raise. */
  datatype Transition = Transition(source: From, name: string, dest: Option<string>, actions: seq<string>)

  predicate ValidTransition(t: Transition) {
    t.source != One("") && t.name != "" && t.dest != Some("")
  }

  function Starts(t: Transition): seq<string> {
    match t.source
    case Any => [""]
    case One(s) => [s]
    case Many(ss) => if ss == [] then [""] else ss
  }

  function DestText(t: Transition): string {
    if t.dest.Some? then t.dest.value else ""
  }

  /** The table and the identifiers after the first transitions. */
  function Table(ts: seq<Transition>): map<string, Transition> {
    if ts == [] then map[]
    else
      var t := ts[|ts| - 1];
      Table(ts[..|ts| - 1]) + Entries(t, Starts(t))
  }

  /** A transition under each of the starts, joined with its name. */
  function Entries(t: Transition, starts: seq<string>): map<string, Transition> {
    map key | key in Keys(t, starts) :: t
  }

  function Keys(t: Transition, starts: seq<string>): set<string> {
    set s | s in starts :: s + t.name
  }

  function Identifiers(ts: seq<Transition>): seq<string> {
    if ts == [] then []
    else
      var t := ts[|ts| - 1];
      Identifiers(ts[..|ts| - 1]) + IdentifiersOf(t, Starts(t))
  }

  function IdentifiersOf(t: Transition, starts: seq<string>): seq<string> {
    seq(|starts|, i requires 0 <= i < |starts| => starts[i] + t.name + DestText(t))
  }

  predicate NoRepeats(s: seq<string>) {
    forall i, j :: 0 <= i < j < |s| ==> s[i] != s[j]
  }

  // ---------------------------------------------------------------- merging updates

  /** `updates_dict[u.key] = u` on an ordered dictionary. */
  function Put(done: seq<Operation>, u: Operation): seq<Operation> {
    if done == [] then [u]
    else if done[0].key == u.key then [u] + done[1..]
    else [done[0]] + Put(done[1..], u)
  }

  /** Two updates of one property with different values. */
  predicate Clashes(done: seq<Operation>, u: Operation) {
    exists i :: 0 <= i < |done| && done[i].key == u.key && done[i].value != u.value
  }

  function Merge(updates: seq<Operation>): Option<seq<Operation>> {
    if updates == [] then Some([])
    else
      var last := updates[|updates| - 1];
      var before := Merge(updates[..|updates| - 1]);
      if before.None? || Clashes(before.value, last) then None else Some(Put(before.value, last))
  }

  predicate KeysDiffer(ops: seq<Operation>) {
    forall i, j :: 0 <= i < j < |ops| ==> ops[i].key != ops[j].key
  }

  lemma {:induction false} PutFacts(done: seq<Operation>, u: Operation)
    requires KeysDiffer(done)
    ensures KeysDiffer(Put(done, u))
    ensures forall x :: x in Put(done, u) <==> x == u || (x in done && x.key != u.key)
  {
    if done != [] {
      assert done == [done[0]] + done[1..];
      PutFacts(done[1..], u);
      if done[0].key != u.key {
        var rest := Put(done[1..], u);
        forall j | 0 <= j < |rest| ensures rest[j].key != done[0].key {
          assert rest[j] in rest;
          if rest[j] != u {
            var k :| 0 <= k < |done[1..]| && done[1..][k] == rest[j];
            assert done[k + 1].key != done[0].key;
          }
        }
      } else {
        forall x | x in done[1..] ensures x.key != u.key {
          var k :| 0 <= k < |done[1..]| && done[1..][k] == x;
          assert done[k + 1].key != done[0].key;
        }
      }
    }
  }

  ghost predicate Conflicting(updates: seq<Operation>) {
    exists i, j :: 0 <= i < j < |updates| && updates[i].key == updates[j].key && updates[i].value != updates[j].value
  }

  /** Every key of the updates is there once, with their common value. */
  ghost predicate Represents(merged: seq<Operation>, updates: seq<Operation>) {
    && KeysDiffer(merged)
    && (forall m :: m in merged ==> m in updates)
    && (forall u :: u in updates ==> HasUpdate(merged, u.key, u.value))
  }

  ghost predicate HasUpdate(ops: seq<Operation>, key: string, value: Value) {
    exists m :: m in ops && m.key == key && m.value == value
  }

  /** Merging fails exactly on two updates of one property with different values, and represents the updates
      otherwise. */
  lemma {:induction false} MergeFacts(updates: seq<Operation>)
    ensures Merge(updates).None? <==> Conflicting(updates)
    ensures Merge(updates).Some? ==> Represents(Merge(updates).value, updates)
  {
    if updates != [] {
      var init, last := updates[..|updates| - 1], updates[|updates| - 1];
      assert updates == init + [last];
      MergeFacts(init);
      if Merge(init).None? {
        var i, j :| 0 <= i < j < |init| && init[i].key == init[j].key && init[i].value != init[j].value;
        assert updates[i].key == updates[j].key && updates[i].value != updates[j].value;
      } else {
        MergeOneMore(init, last, Merge(init).value);
      }
    }
  }

  lemma MergeOneMore(init: seq<Operation>, last: Operation, before: seq<Operation>)
    requires Represents(before, init) && !Conflicting(init)
    ensures Clashes(before, last) <==> Conflicting(init + [last])
    ensures !Clashes(before, last) ==> Represents(Put(before, last), init + [last])
  {
    var updates := init + [last];
    PutFacts(before, last);
    if Clashes(before, last) {
      var i :| 0 <= i < |before| && before[i].key == last.key && before[i].value != last.value;
      assert before[i] in before;
      var k :| 0 <= k < |init| && init[k] == before[i];
      assert updates[k].key == updates[|init|].key && updates[k].value != updates[|init|].value;
    } else {
      forall i, j | 0 <= i < j < |updates| && updates[i].key == updates[j].key
        ensures updates[i].value == updates[j].value
      {
        if j == |init| {
          assert updates[i] in init;
          var m :| m in before && m.key == init[i].key && m.value == init[i].value;
          var k :| 0 <= k < |before| && before[k] == m;
        } else {
          assert init[i].key == init[j].key;
        }
      }
      var after := Put(before, last);
      forall u | u in updates ensures HasUpdate(after, u.key, u.value) {
        if u.key == last.key {
          assert last in after;
          assert u.value == last.value by {
            if u in init {
              var m :| m in before && m.key == u.key && m.value == u.value;
              var k :| 0 <= k < |before| && before[k] == m;
            }
          }
        } else {
          assert u in init;
          var m :| m in before && m.key == u.key && m.value == u.value;
          assert m in after;
        }
      }
    }
  }

  predicate AllSets(ops: seq<Operation>) {
    forall op :: op in ops ==> op.kind == Set
  }

  /** Assignments without conflict give each of their fields its value and leave the others alone. */
  lemma {:induction false} AssignmentsApply(ops: seq<Operation>, doc: Document)
    requires AllSets(ops) && !Conflicting(ops)
    ensures ApplyAll(ops, doc).Some?
    ensures Assigned(ops, doc, ApplyAll(ops, doc).value)
  {
    if ops != [] {
      var init, last := ops[..|ops| - 1], ops[|ops| - 1];
      assert ops == init + [last] && last in ops;
      assert !Conflicting(init) by {
        forall i, j | 0 <= i < j < |init| && init[i].key == init[j].key ensures init[i].value == init[j].value {
          assert ops[i].key == ops[j].key;
        }
      }
      AssignmentsApply(init, doc);
    }
  }

  lemma MergedIsFine(merged: seq<Operation>, updates: seq<Operation>)
    requires Represents(merged, updates)
    ensures !Conflicting(merged) && (AllSets(updates) ==> AllSets(merged))
  {
  }

  /** What assignments without conflict leave. */
  ghost predicate Assigned(ops: seq<Operation>, doc: Document, after: Document) {
    && (forall i :: 0 <= i < |ops| ==> ops[i].key in after && after[ops[i].key] == ops[i].value)
    && (forall k :: (forall i :: 0 <= i < |ops| ==> ops[i].key != k) ==>
          (k in after <==> k in doc) && (k in after && k in doc ==> after[k] == doc[k]))
  }

  /** Assignments merged key by key have the effect of all of them. */
  lemma MergedAssignments(updates: seq<Operation>, doc: Document)
    requires AllSets(updates) && Merge(updates).Some?
    ensures ApplyAll(Merge(updates).value, doc) == ApplyAll(updates, doc)
  {
    MergeFacts(updates);
    MergedIsFine(Merge(updates).value, updates);
    AssignmentsApply(updates, doc);
    AssignmentsApply(Merge(updates).value, doc);
    SameAssigned(updates, Merge(updates).value, doc, ApplyAll(updates, doc).value,
      ApplyAll(Merge(updates).value, doc).value);
  }

  lemma SameAssigned(updates: seq<Operation>, merged: seq<Operation>, doc: Document, a: Document, b: Document)
    requires Represents(merged, updates) && Assigned(updates, doc, a) && Assigned(merged, doc, b)
    ensures a == b
  {
    forall k ensures (k in a <==> k in b) && (k in a && k in b ==> a[k] == b[k]) {
      SameField(updates, merged, doc, a, b, k);
    }
  }

  lemma SameField(updates: seq<Operation>, merged: seq<Operation>, doc: Document, a: Document, b: Document, k: string)
    requires Represents(merged, updates) && Assigned(updates, doc, a) && Assigned(merged, doc, b)
    ensures (k in a <==> k in b) && (k in a && k in b ==> a[k] == b[k])
  {
    if i :| 0 <= i < |updates| && updates[i].key == k {
      assert updates[i] in updates;
      assert HasUpdate(merged, k, updates[i].value);
      var m :| m in merged && m.key == k && m.value == updates[i].value;
      var j :| 0 <= j < |merged| && merged[j] == m;
    } else {
      forall j | 0 <= j < |merged| ensures merged[j].key != k {
        assert merged[j] in merged && merged[j] in updates;
      }
    }
  }

  // ---------------------------------------------------------------- the workflow

  /** The updates of the actions in order, or `None` when one of them raises. */
  function Collected(actions: seq<string>, run: string -> Option<seq<Operation>>): Option<seq<Operation>> {
    if actions == [] then Some([])
    else
      var before := Collected(actions[..|actions| - 1], run);
      var last := run(actions[|actions| - 1]);
      if before.None? || last.None? then None else Some(before.value + last.value)
  }

  /** The status update that goes with a destination. */
  function DestUpdate(statusProp: string, dest: Option<string>): seq<Operation> {
    if dest.None? then [] else [Operation(Set, statusProp, Text(dest.value))]
  }

  /** The transition found for a status and a name: first for the two together, then for the name alone. */
  function Find(table: map<string, Transition>, current: string, name: string): Option<Transition> {
    if current + name in table then Some(table[current + name])
    else if name in table then Some(table[name])
    else None
  }

  /** Only a list of starts is checked once more. */
  predicate Admits(t: Transition, current: string) {
    !(t.source.Many? && t.source.statuses != [] && current !in t.source.statuses)
  }

  /** What a transition yields: the updates of its actions and the status change, merged; `None` for an exception. */
  function Yield(table: map<string, Transition>, statusProp: string, current: string, name: string,
                 run: string -> Option<seq<Operation>>): Option<seq<Operation>>
  {
    var t := Find(table, current, name);
    if t.None? || !Admits(t.value, current) then None
    else
      var collected := Collected(t.value.actions, run);
      if collected.None? then None else Merge(collected.value + DestUpdate(statusProp, t.value.dest))
  }

  // ---------------------------------------------------------------- which transition is found

  /** The transition is entered in the table under `key`. */
  ghost predicate Declares(t: Transition, key: string) {
    exists s :: s in Starts(t) && s + t.name == key
  }

  ghost predicate LastDeclares(ts: seq<Transition>, key: string, k: int) {
    0 <= k < |ts| && Declares(ts[k], key) && forall j :: k < j < |ts| ==> !Declares(ts[j], key)
  }

  ghost predicate Undeclared(ts: seq<Transition>, key: string) {
    forall j :: 0 <= j < |ts| ==> !Declares(ts[j], key)
  }

  lemma LastEntry(ts: seq<Transition>, key: string)
    requires ts != []
    ensures var (before, last) := (Table(ts[..|ts| - 1]), ts[|ts| - 1]);
            && (key in Table(ts) <==> key in before || Declares(last, key))
            && (key in Table(ts) ==> Table(ts)[key] == if Declares(last, key) then last else before[key])
  {
  }

  /** The table holds the transition declared last under each key. */
  lemma {:induction false} TableHolds(ts: seq<Transition>, key: string) returns (k: int)
    ensures if Undeclared(ts, key) then key !in Table(ts)
            else LastDeclares(ts, key, k) && key in Table(ts) && Table(ts)[key] == ts[k]
  {
    k := -1;
    if ts != [] {
      LastEntry(ts, key);
      OneMoreDeclared(ts, key);
      k := TableHolds(ts[..|ts| - 1], key);
      if Declares(ts[|ts| - 1], key) {
        k := |ts| - 1;
      }
    }
  }

  /** The last transition under a key is the new one if it declares the key, and the last before it otherwise. */
  lemma OneMoreDeclared(ts: seq<Transition>, key: string)
    requires ts != []
    ensures var (init, n) := (ts[..|ts| - 1], |ts| - 1);
            if Declares(ts[n], key) then forall k :: LastDeclares(ts, key, k) <==> k == n
            else forall k :: LastDeclares(ts, key, k) <==> LastDeclares(init, key, k)
    ensures Undeclared(ts, key) <==> Undeclared(ts[..|ts| - 1], key) && !Declares(ts[|ts| - 1], key)
  {
    var init, n := ts[..|ts| - 1], |ts| - 1;
    forall k ensures LastDeclares(ts, key, k) <==>
                     if Declares(ts[n], key) then k == n else LastDeclares(init, key, k)
    {
      if LastDeclares(init, key, k) && !Declares(ts[n], key) {
        forall j | k < j < |ts| ensures !Declares(ts[j], key) {
          assert j < n ==> init[j] == ts[j];
        }
      }
      if LastDeclares(ts, key, k) && k != n {
        forall j | k < j < n ensures !Declares(init[j], key) {
          assert !Declares(ts[j], key);
        }
      }
    }
    forall j | 0 <= j < n ensures Declares(init[j], key) <==> Declares(ts[j], key) {
    }
  }

  predicate LeadsFrom(t: Transition, start: string, name: string) {
    t.name == name && start in Starts(t)
  }

  /** The transition of that start and name declared last. */
  function LastFrom(ts: seq<Transition>, start: string, name: string): Option<Transition> {
    if ts == [] then None
    else if LeadsFrom(ts[|ts| - 1], start, name) then Some(ts[|ts| - 1])
    else LastFrom(ts[..|ts| - 1], start, name)
  }

  /** The transition of that name from the current status, and otherwise the one from any status. */
  function Intended(ts: seq<Transition>, current: string, name: string): Option<Transition> {
    var own := LastFrom(ts, current, name);
    if own.Some? then own else LastFrom(ts, "", name)
  }

  /** A status and a name do not run together into those of another transition: what is found under their joined text,
      or under the name alone, was declared for them. */
  ghost predicate Apart(ts: seq<Transition>, current: string, name: string) {
    && (forall k :: LastDeclares(ts, current + name, k) ==> LeadsFrom(ts[k], current, name))
    && (Undeclared(ts, current + name) ==> forall k :: LastDeclares(ts, name, k) ==> LeadsFrom(ts[k], "", name))
  }

  lemma {:induction false} LastFromFacts(ts: seq<Transition>, start: string, name: string)
    ensures forall t :: LastFrom(ts, start, name) == Some(t) ==> LeadsFrom(t, start, name)
    ensures forall k :: LastDeclares(ts, start + name, k) && LeadsFrom(ts[k], start, name) ==>
      LastFrom(ts, start, name) == Some(ts[k])
    ensures Undeclared(ts, start + name) ==> LastFrom(ts, start, name).None?
  {
    if ts != [] {
      var init, last := ts[..|ts| - 1], ts[|ts| - 1];
      LastFromFacts(init, start, name);
      if LeadsFrom(last, start, name) {
        assert Declares(last, start + name);
      }
      OneMoreDeclared(ts, start + name);
    }
  }

  lemma SameStart(s: string, t: string, name: string)
    requires s + name == t + name
    ensures s == t
  {
    assert (s + name)[..|s|] == s && (t + name)[..|t|] == t;
  }

  /** A transition of that name found under the joined text starts at the current status. */
  lemma OwnName(t: Transition, current: string, name: string)
    requires Declares(t, current + name) && t.name == name
    ensures LeadsFrom(t, current, name)
  {
    var s :| s in Starts(t) && s + t.name == current + name;
    SameStart(s, current, name);
  }

  /** The workflow finds the transition meant exactly when the two texts do not run together. */
  lemma FindSelects(ts: seq<Transition>, current: string, name: string)
    ensures Find(Table(ts), current, name) == Intended(ts, current, name) <==> Apart(ts, current, name)
  {
    if Undeclared(ts, current + name) {
      FindByName(ts, current, name);
    } else {
      var k := TableHolds(ts, current + name);
      OnlyLast(ts, current + name, k);
      FoundTogether(ts, current, name, k);
    }
  }

  lemma FoundTogether(ts: seq<Transition>, current: string, name: string, k: int)
    requires LastDeclares(ts, current + name, k)
    ensures Intended(ts, current, name) == Some(ts[k]) <==> LeadsFrom(ts[k], current, name)
  {
    LastFromFacts(ts, current, name);
    LastFromFacts(ts, "", name);
    if ts[k].name == name {
      OwnName(ts[k], current, name);
    }
  }

  lemma FindByName(ts: seq<Transition>, current: string, name: string)
    requires Undeclared(ts, current + name)
    ensures Find(Table(ts), current, name) == Intended(ts, current, name) <==> Apart(ts, current, name)
  {
    var _ := TableHolds(ts, current + name);
    var k := TableHolds(ts, name);
    LastFromFacts(ts, current, name);
    LastFromFacts(ts, "", name);
    assert "" + name == name;
    if !Undeclared(ts, name) {
      OnlyLast(ts, name, k);
    }
  }

  lemma OnlyLast(ts: seq<Transition>, key: string, k: int)
    requires LastDeclares(ts, key, k)
    ensures forall j :: LastDeclares(ts, key, j) ==> j == k
  {
  }

  /** What was meant is admitted, unless it comes from a list that holds the empty status for any other. */
  lemma IntendedIsAdmitted(ts: seq<Transition>, current: string, name: string)
    requires Intended(ts, current, name).Some?
    ensures var t := Intended(ts, current, name).value;
            Admits(t, current) <==>
              LastFrom(ts, current, name).Some? || !(t.source.Many? && "" in t.source.statuses)
  {
    LastFromFacts(ts, current, name);
    LastFromFacts(ts, "", name);
    LastFromIn(ts, current, name);
    LastFromIn(ts, "", name);
  }

  lemma {:induction false} LastFromIn(ts: seq<Transition>, start: string, name: string)
    ensures LastFrom(ts, start, name).Some? ==> LastFrom(ts, start, name).value in ts
    ensures LastFrom(ts, start, name).None? ==> forall t :: t in ts ==> !LeadsFrom(t, start, name)
  {
    if ts != [] {
      LastFromIn(ts[..|ts| - 1], start, name);
      assert ts == ts[..|ts| - 1] + [ts[|ts| - 1]];
    }
  }

  /** Two transitions that run together: the later one is found in place of the one meant. */
  lemma RunTogether(meant: Transition, other: Transition, current: string, name: string)
    requires LeadsFrom(meant, current, name) && Declares(other, current + name) && other.name != name
    ensures Find(Table([meant, other]), current, name) == Some(other)
    ensures Intended([meant, other], current, name) == Some(meant)
  {
    var ts := [meant, other];
    var k := TableHolds(ts, current + name);
    assert LastDeclares(ts, current + name, 1);
    OnlyLast(ts, current + name, 1);
    assert ts[..1] == [meant];
    assert LastFrom([meant], current, name) == Some(meant);
  }

  lemma TwoIdentifiers(a: Transition, b: Transition)
    requires |Starts(a)| == 1 && |Starts(b)| == 1
    ensures Identifiers([a, b]) == [Starts(a)[0] + a.name + DestText(a), Starts(b)[0] + b.name + DestText(b)]
  {
    assert [a, b][..1] == [a] && [a][..0] == [];
    assert Identifiers([a]) == IdentifiersOf(a, Starts(a));
  }

  /** An accepted workflow with two such transitions: the vote on an open hit is answered by another one, which is not
      refused either. */
  lemma NamesRunTogether() returns (meant: Transition, other: Transition)
    ensures ValidTransition(meant) && ValidTransition(other) && NoRepeats(Identifiers([meant, other]))
    ensures LeadsFrom(meant, "open", "vote") && !LeadsFrom(other, "open", "vote")
    ensures Find(Table([meant, other]), "open", "vote") == Some(other) && Admits(other, "open")
    ensures Intended([meant, other], "open", "vote") == Some(meant)
  {
    meant := Transition(One("open"), "vote", None, []);
    other := Transition(One("op"), "envote", Some("closed"), []);
    TwoIdentifiers(meant, other);
    assert |Identifiers([meant, other])[0]| == 8 && |Identifiers([meant, other])[1]| == 14;
    assert Declares(other, "open" + "vote") by {
      assert "op" in Starts(other) && "op" + other.name == "open" + "vote";
    }
    RunTogether(meant, other, "open", "vote");
  }

  // ---------------------------------------------------------------- collecting and merging fail early

  lemma {:induction false} CollectedFails(actions: seq<string>, run: string -> Option<seq<Operation>>, k: nat)
    requires k <= |actions| && Collected(actions[..k], run).None?
    ensures Collected(actions, run).None?
    decreases |actions|
  {
    if k < |actions| {
      assert actions[..|actions| - 1][..k] == actions[..k];
      CollectedFails(actions[..|actions| - 1], run, k);
    } else {
      assert actions[..k] == actions;
    }
  }

  lemma {:induction false} CollectedStarts(actions: seq<string>, run: string -> Option<seq<Operation>>, k: nat)
    requires k <= |actions| && Collected(actions, run).Some?
    ensures Collected(actions[..k], run).Some? && Collected(actions[..k], run).value <= Collected(actions, run).value
    decreases |actions|
  {
    if k < |actions| {
      assert actions[..|actions| - 1][..k] == actions[..k];
      CollectedStarts(actions[..|actions| - 1], run, k);
    } else {
      assert actions[..k] == actions;
    }
  }

  /** A conflict stays one whatever is merged after it. */
  lemma {:induction false} MergeFails(a: seq<Operation>, b: seq<Operation>)
    requires Merge(a).None? && a <= b
    ensures Merge(b).None?
    decreases |b|
  {
    if |a| < |b| {
      assert a <= b[..|b| - 1];
      MergeFails(a, b[..|b| - 1]);
    } else {
      assert a == b;
    }
  }

  class Workflow {
    const statusProp: string
    var transitions: map<string, Transition>
    var currentStatus: Option<string>

    constructor (statusProp: string)
      ensures this.statusProp == statusProp && transitions == map[]
    {
      this.statusProp := statusProp;
      transitions, currentStatus := map[], None;
    }

    /** Fill the table. It fails on an invalid transition and on two with the same start, name and destination. */
    method Init(ts: seq<Transition>) returns (ok: bool)
      requires transitions == map[]
      modifies this`transitions
      ensures ok <==> (forall t :: t in ts ==> ValidTransition(t)) && NoRepeats(Identifiers(ts))
      ensures ok ==> transitions == Table(ts)
    {
      if exists t :: t in ts && !ValidTransition(t) {
        return false;
      }
      var identifiers: seq<string> := [];
      for k := 0 to |ts|
        invariant transitions == Table(ts[..k]) && identifiers == Identifiers(ts[..k])
      {
        assert ts[..k + 1][..k] == ts[..k];
        identifiers := AddTransition(ts[k], identifiers);
      }
      assert ts[..|ts|] == ts;
      ok := NoRepeats(identifiers);
    }

    /** Enter one transition under each of its starts. */
    method AddTransition(t: Transition, identifiers: seq<string>) returns (more: seq<string>)
      modifies this`transitions
      ensures transitions == old(transitions) + Entries(t, Starts(t))
      ensures more == identifiers + IdentifiersOf(t, Starts(t))
    {
      var starts := Starts(t);
      more := identifiers;
      for j := 0 to |starts|
        invariant transitions == old(transitions) + Entries(t, starts[..j])
        invariant more == identifiers + IdentifiersOf(t, starts)[..j]
      {
        EntriesMore(old(transitions), t, starts, j);
        transitions := transitions[starts[j] + t.name := t];
        more := more + [starts[j] + t.name + DestText(t)];
      }
      assert starts[..|starts|] == starts;
    }

    /** `transition`. `None` stands for an exception, by the workflow or by an action. */
    method Transition(current: string, name: string, run: string -> Option<seq<Operation>>)
      returns (r: Option<seq<Operation>>)
      modifies this`currentStatus
      ensures r == Yield(transitions, statusProp, current, name, run)
      ensures currentStatus ==
        if r.None? then old(currentStatus)
        else var dest := Find(transitions, current, name).value.dest; if dest.Some? then dest else Some(current)
    {
      var found := Find(transitions, current, name);
      if found.None? || !Admits(found.value, current) {
        return None;
      }
      var t := found.value;
      r := MergedUpdates(t.actions, run);
      if r.None? {
        if Collected(t.actions, run).Some? {
          MergeFails(Collected(t.actions, run).value, Collected(t.actions, run).value + DestUpdate(statusProp, t.dest));
        }
        return;
      }
      ghost var collected := Collected(t.actions, run).value;
      if t.dest.Some? {
        var u := Operation(Set, statusProp, Text(t.dest.value));
        assert (collected + [u])[..|collected|] == collected;
        if Clashes(r.value, u) {
          return None;
        }
        r := Some(Put(r.value, u));
      } else {
        assert collected + [] == collected;
      }
      currentStatus := if t.dest.Some? then t.dest else Some(current);
    }
  }

  /** The loops over the actions and their updates. */
  method MergedUpdates(actions: seq<string>, run: string -> Option<seq<Operation>>) returns (r: Option<seq<Operation>>)
    ensures r == (var all := Collected(actions, run); if all.None? then None else Merge(all.value))
  {
    var updates: seq<Operation> := [];
    ghost var collected: seq<Operation> := [];
    for i := 0 to |actions|
      invariant Collected(actions[..i], run) == Some(collected) && Merge(collected) == Some(updates)
    {
      assert actions[..i + 1][..i] == actions[..i];
      var more := run(actions[i]);
      if more.None? {
        CollectedFails(actions, run, i + 1);
        return None;
      }
      var merged := MergeInto(collected, updates, more.value);
      if merged.None? {
        if Collected(actions, run).Some? {
          CollectedStarts(actions, run, i + 1);
          MergeFails(collected + more.value, Collected(actions, run).value);
        }
        return None;
      }
      collected, updates := collected + more.value, merged.value;
    }
    assert actions[..|actions|] == actions;
    return Some(updates);
  }

  method MergeInto(ghost before: seq<Operation>, done: seq<Operation>, more: seq<Operation>)
    returns (r: Option<seq<Operation>>)
    requires Merge(before) == Some(done)
    ensures r == Merge(before + more)
  {
    var updates := done;
    assert before + more[..0] == before;
    for j := 0 to |more|
      invariant Merge(before + more[..j]) == Some(updates)
    {
      assert before + more[..j + 1] == (before + more[..j]) + [more[j]];
      assert (before + more[..j + 1])[..|before| + j] == before + more[..j];
      if Clashes(updates, more[j]) {
        MergeFails(before + more[..j + 1], before + more);
        return None;
      }
      updates := Put(updates, more[j]);
    }
    assert more[..|more|] == more;
    return Some(updates);
  }

  lemma EntriesMore(table: map<string, Transition>, t: Transition, starts: seq<string>, j: nat)
    requires j < |starts|
    ensures table + Entries(t, starts[..j + 1]) == (table + Entries(t, starts[..j]))[starts[j] + t.name := t]
  {
    assert starts[..j + 1] == starts[..j] + [starts[j]];
  }
}
