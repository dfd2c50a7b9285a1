/** The bulk plan: field-scoped updates queued for every index, and the queue cut into batches. */
module Bulk {
  import opened Wrappers
  import opened Prune

  // ---------------------------------------------------------------- field patterns

  /** The match of a pattern in which `*` stands for any text. */
  predicate Glob(pattern: string, s: string)
    decreases |pattern| + |s|
  {
    if pattern == "" then s == ""
    else if pattern[0] == '*' then Glob(pattern[1..], s) || (s != "" && Glob(pattern, s[1..]))
    else s != "" && s[0] == pattern[0] && Glob(pattern[1..], s[1..])
  }

  lemma {:induction false} GlobLiteral(pattern: string, s: string)
    requires '*' !in pattern
    ensures Glob(pattern, s) <==> pattern == s
  {
    if pattern != "" {
      assert pattern == [pattern[0]] + pattern[1..];
      if s != "" {
        GlobLiteral(pattern[1..], s[1..]);
        assert s == [s[0]] + s[1..];
      }
    }
  }

  lemma {:induction false} GlobSuffix(b: string, s: string)
    requires '*' !in b
    ensures Glob("*" + b, s) <==> |b| <= |s| && s[|s| - |b|..] == b
    decreases |s|
  {
    assert ("*" + b)[1..] == b;
    GlobLiteral(b, s);
    if s != "" {
      GlobSuffix(b, s[1..]);
      if |b| <= |s| - 1 {
        assert s[1..][|s| - 1 - |b|..] == s[|s| - |b|..];
      }
    }
  }

  /** One star: the path starts and ends as the pattern does, without overlap. */
  lemma {:induction false} GlobOneStar(a: string, b: string, s: string)
    requires '*' !in a && '*' !in b
    ensures Glob(a + "*" + b, s) <==> |a| + |b| <= |s| && a <= s && s[|s| - |b|..] == b
    decreases |a|
  {
    var pattern := a + "*" + b;
    if a == "" {
      assert pattern == "*" + b;
      GlobSuffix(b, s);
    } else {
      assert pattern[1..] == a[1..] + "*" + b && a == [a[0]] + a[1..];
      assert pattern[0] == a[0] && a[0] in a;
      if s != "" && s[0] == a[0] {
        GlobOneStar(a[1..], b, s[1..]);
        assert s == [s[0]] + s[1..];
        StartsAfter(a, s);
        if |a| + |b| <= |s| {
          assert s[1..][|s| - 1 - |b|..] == s[|s| - |b|..];
        }
      }
    }
  }

  lemma StartsAfter(a: string, s: string)
    requires a != "" && s != "" && a[0] == s[0]
    ensures a <= s <==> a[1..] <= s[1..]
  {
    assert a == [a[0]] + a[1..] && s == [s[0]] + s[1..];
    if a[1..] <= s[1..] {
      forall i | 0 <= i < |a| ensures a[i] == s[i] {
        if i > 0 { assert a[1..][i - 1] == s[1..][i - 1]; }
      }
    }
    if a <= s {
      forall i | 0 <= i < |a[1..]| ensures a[1..][i] == s[1..][i] {
        assert a[i + 1] == s[i + 1];
      }
    }
  }

  /** A pattern selects itself, or the known paths it matches. */
  predicate Selects(known: Option<seq<string>>, preserveAll: bool, pattern: string, path: string) {
    if known.None? || '*' !in pattern || (pattern == "*" && preserveAll) then path == pattern
    else path in known.value && Glob(pattern, path)
  }

  /** `expand_field_patterns`; `known` holds the model's paths, if there is a model. */
  method ExpandFieldPatterns(known: Option<seq<string>>, patterns: seq<string>, preserveAll: bool)
    returns (expanded: set<string>)
    ensures forall path :: path in expanded <==>
      exists k :: 0 <= k < |patterns| && Selects(known, preserveAll, patterns[k], path)
  {
    if known.None? {
      return set p | p in patterns;
    }
    expanded := {};
    for k := 0 to |patterns|
      invariant forall path :: path in expanded <==>
        exists j :: 0 <= j < k && Selects(known, preserveAll, patterns[j], path)
    {
      var pattern := patterns[k];
      if '*' !in pattern {
        expanded := expanded + {pattern};
      } else if pattern == "*" && preserveAll {
        expanded := expanded + {pattern};
      } else {
        expanded := expanded + set path | path in known.value && Glob(pattern, path);
      }
    }
  }

  // ---------------------------------------------------------------- the plan

  datatype Operation = Update(index: string, id: string, body: Value)

  function Flat(batches: seq<seq<Operation>>): seq<Operation> {
    if batches == [] then [] else Flat(batches[..|batches| - 1]) + batches[|batches| - 1]
  }

  function Least(a: nat, b: nat): nat { if a < b then a else b }

  /** Batches of `size` operations, the last one perhaps of fewer. */
  predicate Sized(batches: seq<seq<Operation>>, size: nat) {
    forall i :: 0 <= i < |batches| ==> 0 < |batches[i]| <= size && (i < |batches| - 1 ==> |batches[i]| == size)
  }

  predicate Full(batches: seq<seq<Operation>>, size: nat) {
    forall i :: 0 <= i < |batches| ==> |batches[i]| == size
  }

  lemma FlatMore(batches: seq<seq<Operation>>, batch: seq<Operation>)
    ensures Flat(batches + [batch]) == Flat(batches) + batch
  {
    assert (batches + [batch])[..|batches|] == batches;
  }

  lemma SizedMore(batches: seq<seq<Operation>>, batch: seq<Operation>, size: nat)
    requires Full(batches, size) && 0 < |batch| <= size
    ensures Sized(batches + [batch], size) && (|batch| == size ==> Full(batches + [batch], size))
  {
    forall i | 0 <= i < |batches| ensures |(batches + [batch])[i]| == size {
      assert (batches + [batch])[i] == batches[i];
    }
  }

  lemma OneMoreBatch(batches: seq<seq<Operation>>, queue: seq<Operation>, ptr: nat, size: nat)
    requires ptr < |queue| && size > 0 && Flat(batches) == queue[..ptr] && Full(batches, size)
    ensures var end := Least(ptr + size, |queue|);
            var more := batches + [queue[ptr..end]];
            Flat(more) == queue[..end] && Sized(more, size) && (ptr + size < |queue| ==> Full(more, size))
  {
    var end := Least(ptr + size, |queue|);
    FlatMore(batches, queue[ptr..end]);
    SizedMore(batches, queue[ptr..end], size);
    assert queue[..end] == queue[..ptr] + queue[ptr..end];
  }

  class BulkPlan {
    const indexes: seq<string>
    const known: Option<seq<string>>
    var operations: seq<Operation>

    constructor (indexes: seq<string>, known: Option<seq<string>>)
      ensures this.indexes == indexes && this.known == known && operations == []
    {
      this.indexes, this.known, operations := indexes, known, [];
    }

    /** `add_update_operation`: one update for the given index, or one for each index of the plan. */
    method AddUpdate(id: string, doc: Value, index: Option<string>, fields: Option<seq<string>>)
      returns (ghost allowed: set<string>)
      modifies this`operations
      ensures fields.Some? ==>
        forall path :: path in allowed <==>
          exists k :: 0 <= k < |fields.value| && Selects(known, false, fields.value[k], path)
      ensures var targets := if index.Some? && index.value != "" then [index.value] else indexes;
              var body := if fields.Some? then PruneToPaths(doc, allowed, "") else doc;
              && |operations| == |old(operations)| + |targets|
              && operations[..|old(operations)|] == old(operations)
              && forall i :: 0 <= i < |targets| ==> operations[|old(operations)| + i] == Update(targets[i], id, body)
    {
      var savedDoc := doc;
      allowed := {};
      if fields.Some? {
        var expanded := ExpandFieldPatterns(known, fields.value, false);
        allowed := expanded;
        savedDoc := PruneToPaths(doc, expanded, "");
      }
      ghost var before := |operations|;
      if index.Some? && index.value != "" {
        operations := operations + [Update(index.value, id, savedDoc)];
      } else {
        for i := 0 to |indexes|
          invariant |operations| == before + i && operations[..before] == old(operations)
          invariant forall j :: 0 <= j < i ==> operations[before + j] == Update(indexes[j], id, savedDoc)
        {
          operations := operations + [Update(indexes[i], id, savedDoc)];
        }
      }
    }

    /** `get_plan_batches`; `None` stands for the exception of a step of zero, and no size means one batch. With a
        positive size the batches are the queue, cut every `size` operations; with a negative one there are none. */
    method GetPlanBatches(batchSize: Option<int>) returns (r: Option<seq<seq<Operation>>>)
      ensures var size := if batchSize.Some? then batchSize.value else |operations|;
              && (r.None? <==> size == 0)
              && (size > 0 ==> Flat(r.value) == operations)
              && (size > 0 ==> Sized(r.value, size))
              && (size < 0 ==> r.value == [])
    {
      var size := if batchSize.Some? then batchSize.value else |operations|;
      if size == 0 { return None; }
      if size < 0 { return Some([]); }
      var batches: seq<seq<Operation>> := [];
      var ptr := 0;
      assert operations[..0] == [];
      while ptr < |operations|
        invariant 0 <= ptr && Sized(batches, size)
        invariant Flat(batches) == operations[..Least(ptr, |operations|)]
        invariant ptr < |operations| ==> Full(batches, size)
        decreases |operations| - ptr
      {
        OneMoreBatch(batches, operations, ptr, size);
        batches := batches + [operations[ptr..Least(ptr + size, |operations|)]];
        ptr := ptr + size;
      }
      assert operations[..|operations|] == operations;
      return Some(batches);
    }
  }
}
