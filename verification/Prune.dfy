/** Field-scoped updates: expanding field patterns, pruning a document to the selected paths, and merging what is
    left. */
module Prune {
  import opened Wrappers

  datatype Value = Scalar(text: string) | Object(fields: map<string, Value>) | Array(items: seq<Value>)

  // ---------------------------------------------------------------- paths

  function Path(prefix: string, key: string): string {
    if prefix != "" then prefix + "." + key else key
  }

  /** The dotted path of a list of keys. */
  function Dotted(prefix: string, keys: seq<string>): string
    decreases |keys|
  {
    if keys == [] then prefix else Dotted(Path(prefix, keys[0]), keys[1..])
  }

  /** Some allowed path goes on below `path`. */
  predicate Longer(allowed: set<string>, path: string) {
    exists p :: p in allowed && path + "." <= p
  }

  // ---------------------------------------------------------------- pruning

  /** `prune_to_paths`. */
  function PruneToPaths(v: Value, allowed: set<string>, prefix: string): Value
    decreases v
  {
    match v
    case Object(fields) =>
      Object(map k | k in fields && (Path(prefix, k) in allowed || Longer(allowed, Path(prefix, k))) ::
        if Path(prefix, k) in allowed then fields[k] else PruneToPaths(fields[k], allowed, Path(prefix, k)))
    case Array(items) => Array(seq(|items|, i requires 0 <= i < |items| => PruneToPaths(items[i], allowed, prefix)))
    case Scalar(_) => v
  }

  /** A way to a value: by key through objects, by position through lists. */
  datatype Step = Key(key: string) | Position(at: nat)

  function At(v: Value, route: seq<Step>): Option<Value> {
    if route == [] then Some(v)
    else match route[0]
      case Key(k) => if v.Object? && k in v.fields then At(v.fields[k], route[1..]) else None
      case Position(i) => if v.Array? && i < |v.items| then At(v.items[i], route[1..]) else None
  }

  /** The keys along a route: lists are transparent. */
  function Keys(route: seq<Step>): seq<string> {
    if route == [] then []
    else if route[0].Key? then [route[0].key] + Keys(route[1..])
    else Keys(route[1..])
  }

  predicate NonEmpty(keys: seq<string>) {
    forall i :: 0 <= i < |keys| ==> keys[i] != ""
  }

  /** Pruning's decisions along a list of keys. */
  predicate Kept(allowed: set<string>, prefix: string, keys: seq<string>)
    decreases |keys|
  {
    keys == []
    || (var cur := Path(prefix, keys[0]);
        cur in allowed || (Longer(allowed, cur) && Kept(allowed, cur, keys[1..])))
  }

  /** A path is selected when it or the beginning of it is allowed, or when it is the beginning of an allowed one. */
  ghost predicate Selected(allowed: set<string>, prefix: string, keys: seq<string>) {
    || (exists i :: 1 <= i <= |keys| && Dotted(prefix, keys[..i]) in allowed)
    || Longer(allowed, Dotted(prefix, keys))
  }

  lemma {:induction false} DottedMore(prefix: string, keys: seq<string>, i: nat)
    requires i <= |keys| && keys != [] && NonEmpty(keys)
    ensures i > 0 ==> Dotted(prefix, keys[..i]) == Dotted(Path(prefix, keys[0]), keys[1..][..i - 1])
    ensures Path(prefix, keys[0]) != ""
  {
    if i > 0 {
      assert keys[..i][0] == keys[0] && keys[..i][1..] == keys[1..][..i - 1];
    }
  }

  /** A longer path starts with the shorter one and a dot. */
  lemma {:induction false} DottedStarts(prefix: string, keys: seq<string>)
    requires prefix != "" && NonEmpty(keys)
    ensures if keys == [] then Dotted(prefix, keys) == prefix else prefix + "." <= Dotted(prefix, keys)
    decreases |keys|
  {
    if keys != [] {
      DottedStarts(Path(prefix, keys[0]), keys[1..]);
      assert prefix + "." <= Path(prefix, keys[0]);
    }
  }

  lemma LongerStart(allowed: set<string>, a: string, b: string)
    requires a + "." <= b && (b in allowed || Longer(allowed, b))
    ensures Longer(allowed, a)
  {
    if b in allowed {
    } else {
      var p :| p in allowed && b + "." <= p;
      assert a + "." <= p;
    }
  }

  /** The decisions come to the selection. */
  lemma {:induction false} KeptIsSelected(allowed: set<string>, prefix: string, keys: seq<string>)
    requires keys != [] && NonEmpty(keys)
    ensures Kept(allowed, prefix, keys) <==> Selected(allowed, prefix, keys)
    decreases |keys|
  {
    var cur, rest := Path(prefix, keys[0]), keys[1..];
    DottedMore(prefix, keys, 1);
    assert keys[..1] == [keys[0]] && rest[..0] == [];
    assert Dotted(prefix, keys) == Dotted(cur, rest);
    if rest == [] {
      SelectedOne(allowed, prefix, keys);
    } else {
      assert NonEmpty(rest) by { forall i | 0 <= i < |rest| ensures rest[i] != "" { assert keys[i + 1] != ""; } }
      KeptIsSelected(allowed, cur, rest);
      SelectedMore(allowed, prefix, keys);
    }
  }

  lemma SelectedOne(allowed: set<string>, prefix: string, keys: seq<string>)
    requires |keys| == 1
    ensures Selected(allowed, prefix, keys) <==>
      Path(prefix, keys[0]) in allowed || Longer(allowed, Path(prefix, keys[0]))
  {
    assert keys[..1] == keys;
    assert Dotted(prefix, keys) == Path(prefix, keys[0]);
  }

  lemma SelectedMore(allowed: set<string>, prefix: string, keys: seq<string>)
    requires |keys| > 1 && NonEmpty(keys) && NonEmpty(keys[1..])
    ensures var cur := Path(prefix, keys[0]);
            Selected(allowed, prefix, keys) <==>
              cur in allowed || (Longer(allowed, cur) && Selected(allowed, cur, keys[1..]))
  {
    var cur, rest := Path(prefix, keys[0]), keys[1..];
    DottedMore(prefix, keys, 1);
    assert Dotted(prefix, keys[..1]) == cur;
    assert NonEmpty(rest);
    if Selected(allowed, prefix, keys) && cur !in allowed {
      if i :| 1 <= i <= |keys| && Dotted(prefix, keys[..i]) in allowed {
        DottedMore(prefix, keys, i);
        assert i > 1;
        assert Dotted(cur, rest[..i - 1]) in allowed;
        assert NonEmpty(rest[..i - 1]);
        DottedStarts(cur, rest[..i - 1]);
        LongerStart(allowed, cur, Dotted(cur, rest[..i - 1]));
      } else {
        DottedStarts(cur, rest);
        LongerStart(allowed, cur, Dotted(cur, rest));
      }
    }
    if Selected(allowed, cur, rest) && !Longer(allowed, Dotted(cur, rest)) {
      var i :| 1 <= i <= |rest| && Dotted(cur, rest[..i]) in allowed;
      DottedMore(prefix, keys, i + 1);
      assert Dotted(prefix, keys[..i + 1]) in allowed;
    }
  }

  /** Nothing on either side, the same scalar, two objects, or two lists of one length. */
  predicate SameNode(a: Option<Value>, b: Option<Value>) {
    match (a, b)
    case (None, None) => true
    case (Some(Scalar(x)), Some(Scalar(y))) => x == y
    case (Some(Object(_)), Some(Object(_))) => true
    case (Some(Array(xs)), Some(Array(ys))) => |xs| == |ys|
    case _ => false
  }

  /** At every route, pruning keeps exactly what lies on the kept paths. */
  lemma {:induction false} PruneKeeps(v: Value, allowed: set<string>, prefix: string, route: seq<Step>)
    ensures SameNode(At(PruneToPaths(v, allowed, prefix), route),
                     if Kept(allowed, prefix, Keys(route)) then At(v, route) else None)
    decreases |route|
  {
    if route != [] {
      match route[0]
      case Key(k) =>
        if v.Object? && k in v.fields {
          if Path(prefix, k) in allowed {
            WholeIsSame(v.fields[k], route[1..]);
          } else {
            PruneKeeps(v.fields[k], allowed, Path(prefix, k), route[1..]);
          }
        }
      case Position(i) =>
        if v.Array? && i < |v.items| {
          PruneKeeps(v.items[i], allowed, prefix, route[1..]);
        }
    }
  }

  lemma WholeIsSame(v: Value, route: seq<Step>)
    ensures SameNode(At(v, route), At(v, route))
  {
  }

  /** A value is kept exactly when a beginning of its dotted path is allowed, or its path is the beginning of an
      allowed one; lists are transparent and keep their length, scalars keep their text. Nothing is moved or made up. */
  lemma PruneIsExact(v: Value, allowed: set<string>, route: seq<Step>)
    requires NonEmpty(Keys(route))
    ensures SameNode(At(PruneToPaths(v, allowed, ""), route),
                     if Keys(route) == [] || Selected(allowed, "", Keys(route)) then At(v, route) else None)
  {
    PruneKeeps(v, allowed, "", route);
    if Keys(route) != [] {
      KeptIsSelected(allowed, "", Keys(route));
    }
  }

  /** Pruning again changes nothing. */
  lemma {:induction false} PruneIdempotent(v: Value, allowed: set<string>, prefix: string)
    ensures PruneToPaths(PruneToPaths(v, allowed, prefix), allowed, prefix) == PruneToPaths(v, allowed, prefix)
    decreases v
  {
    var once := PruneToPaths(v, allowed, prefix);
    match v
    case Object(fields) =>
      forall k | k in once.fields && Path(prefix, k) !in allowed
        ensures PruneToPaths(once.fields[k], allowed, Path(prefix, k)) == once.fields[k]
      {
        PruneIdempotent(fields[k], allowed, Path(prefix, k));
      }
      assert PruneToPaths(once, allowed, prefix).fields == once.fields;
    case Array(items) =>
      forall i | 0 <= i < |items| ensures PruneToPaths(once.items[i], allowed, prefix) == once.items[i] {
        PruneIdempotent(items[i], allowed, prefix);
      }
      assert PruneToPaths(once, allowed, prefix).items == once.items;
    case Scalar(_) =>
  }

  // ---------------------------------------------------------------- merging into the stored document

  /** Elasticsearch's partial update: objects are merged key by key, anything else is replaced. */
  function Merge(stored: Value, body: Value): Value
    decreases body
  {
    if stored.Object? && body.Object? then
      Object(map k | k in stored.fields.Keys + body.fields.Keys ::
        if k !in body.fields then stored.fields[k]
        else if k in stored.fields then Merge(stored.fields[k], body.fields[k])
        else body.fields[k])
    else body
  }

  /** The value at a path of keys. */
  function Get(v: Value, keys: seq<string>): Option<Value> {
    if keys == [] then Some(v)
    else if v.Object? && keys[0] in v.fields then Get(v.fields[keys[0]], keys[1..])
    else None
  }

  /** The body has something else than an object on the way to the path. */
  predicate Blocked(body: Value, keys: seq<string>) {
    keys != [] && (!body.Object? || (keys[0] in body.fields && Blocked(body.fields[keys[0]], keys[1..])))
  }

  /** A path the body does not have keeps its stored value, unless the body puts something else than an object above
      it. */
  lemma {:induction false} MergeElsewhere(stored: Value, body: Value, keys: seq<string>)
    requires keys != [] && Get(body, keys) == None
    ensures Get(Merge(stored, body), keys) == if Blocked(body, keys) then None else Get(stored, keys)
    decreases |keys|
  {
    if stored.Object? && body.Object? && keys[0] in body.fields && keys[0] in stored.fields {
      if |keys| > 1 {
        MergeElsewhere(stored.fields[keys[0]], body.fields[keys[0]], keys[1..]);
      }
    }
  }

  /** Pruning drops a path that is not kept. */
  lemma {:induction false} PruneDrops(v: Value, allowed: set<string>, prefix: string, keys: seq<string>)
    requires !Kept(allowed, prefix, keys)
    ensures Get(PruneToPaths(v, allowed, prefix), keys) == None
    decreases |keys|
  {
    if v.Object? && keys[0] in v.fields {
      var cur := Path(prefix, keys[0]);
      if Longer(allowed, cur) {
        PruneDrops(v.fields[keys[0]], allowed, cur, keys[1..]);
      }
    }
  }

  predicate HasNoObject(v: Value, keys: seq<string>) {
    Get(v, keys).Some? && !Get(v, keys).value.Object?
  }

  /** The body has a list or a scalar above the path, and some allowed path goes on below it. */
  ghost predicate Shadowed(body: Value, allowed: set<string>, prefix: string, keys: seq<string>) {
    exists i :: 0 <= i < |keys| && HasNoObject(body, keys[..i])
      && (i == 0 || Longer(allowed, Dotted(prefix, keys[..i])))
  }

  /** Neither the path nor a beginning of it is allowed. */
  ghost predicate NoneAllowed(allowed: set<string>, prefix: string, keys: seq<string>) {
    forall i :: 1 <= i <= |keys| ==> Dotted(prefix, keys[..i]) !in allowed
  }

  lemma ShadowStep(body: Value, allowed: set<string>, prefix: string, keys: seq<string>, i: nat)
    requires body.Object? && 1 <= i < |keys| && NonEmpty(keys)
    ensures HasNoObject(body, keys[..i]) <==>
      keys[0] in body.fields && HasNoObject(body.fields[keys[0]], keys[1..][..i - 1])
    ensures Dotted(prefix, keys[..i]) == Dotted(Path(prefix, keys[0]), keys[1..][..i - 1])
    ensures Longer(allowed, Dotted(prefix, keys[..i])) ==> Longer(allowed, Path(prefix, keys[0]))
  {
    DottedMore(prefix, keys, i);
    assert keys[..i][0] == keys[0] && keys[..i][1..] == keys[1..][..i - 1];
    var cur, rest := Path(prefix, keys[0]), keys[1..][..i - 1];
    assert NonEmpty(rest) by { forall k | 0 <= k < |rest| ensures rest[k] != "" { assert keys[k + 1] != ""; } }
    DottedStarts(cur, rest);
    if rest != [] && Longer(allowed, Dotted(cur, rest)) {
      LongerStart(allowed, cur, Dotted(cur, rest));
    }
  }

  lemma ShadowedMore(body: Value, allowed: set<string>, prefix: string, keys: seq<string>)
    requires body.Object? && keys != [] && NonEmpty(keys)
    ensures var cur := Path(prefix, keys[0]);
            Shadowed(body, allowed, prefix, keys)
            <==>
            keys[0] in body.fields && Longer(allowed, cur) && Shadowed(body.fields[keys[0]], allowed, cur, keys[1..])
  {
    var cur := Path(prefix, keys[0]);
    assert keys[..0] == [] && !HasNoObject(body, []);
    forall i | 1 <= i < |keys|
      ensures HasNoObject(body, keys[..i]) <==>
        keys[0] in body.fields && HasNoObject(body.fields[keys[0]], keys[1..][..i - 1])
      ensures Dotted(prefix, keys[..i]) == Dotted(cur, keys[1..][..i - 1])
      ensures Longer(allowed, Dotted(prefix, keys[..i])) ==> Longer(allowed, cur)
    {
      ShadowStep(body, allowed, prefix, keys, i);
    }
    if Shadowed(body, allowed, prefix, keys) {
      var i :| 0 <= i < |keys| && HasNoObject(body, keys[..i])
        && (i == 0 || Longer(allowed, Dotted(prefix, keys[..i])));
      assert HasNoObject(body.fields[keys[0]], keys[1..][..i - 1]);
    }
    if keys[0] in body.fields && Longer(allowed, cur) && Shadowed(body.fields[keys[0]], allowed, cur, keys[1..]) {
      var i :| 0 <= i < |keys[1..]| && HasNoObject(body.fields[keys[0]], keys[1..][..i])
               && (i == 0 || Longer(allowed, Dotted(cur, keys[1..][..i])));
      assert keys[1..][..i + 1 - 1] == keys[1..][..i];
      assert keys[1..][..0] == [];
      assert HasNoObject(body, keys[..i + 1]);
    }
  }

  lemma NoneAllowedMore(allowed: set<string>, prefix: string, keys: seq<string>)
    requires keys != [] && NonEmpty(keys) && NoneAllowed(allowed, prefix, keys)
    ensures Path(prefix, keys[0]) !in allowed && NoneAllowed(allowed, Path(prefix, keys[0]), keys[1..])
    ensures NonEmpty(keys[1..])
  {
    DottedMore(prefix, keys, 1);
    assert Dotted(prefix, keys[..1]) == Path(prefix, keys[0]);
    forall i | 1 <= i <= |keys[1..]| ensures Dotted(Path(prefix, keys[0]), keys[1..][..i]) !in allowed {
      DottedMore(prefix, keys, i + 1);
      assert Dotted(prefix, keys[..i + 1]) !in allowed;
    }
    forall i | 0 <= i < |keys[1..]| ensures keys[1..][i] != "" {
      assert keys[i + 1] != "";
    }
  }

  /** What the pruned body blocks, read off the body and the selection. */
  lemma {:induction false} BlockedIsShadowed(body: Value, allowed: set<string>, prefix: string, keys: seq<string>)
    requires NonEmpty(keys) && NoneAllowed(allowed, prefix, keys)
    ensures Blocked(PruneToPaths(body, allowed, prefix), keys) <==> Shadowed(body, allowed, prefix, keys)
    decreases |keys|
  {
    if keys != [] {
      if body.Object? {
        NoneAllowedMore(allowed, prefix, keys);
        ShadowedMore(body, allowed, prefix, keys);
        if keys[0] in body.fields {
          BlockedIsShadowed(body.fields[keys[0]], allowed, Path(prefix, keys[0]), keys[1..]);
        }
      } else {
        assert keys[..0] == [] && HasNoObject(body, keys[..0]);
      }
    }
  }

  /** A field-scoped update leaves the stored value of every path unrelated to the selected ones as it is, exactly
      unless the body has a list or a scalar above it, with some selected path below, where the stored document goes
      on. */
  lemma UpdateKeepsOthers(stored: Value, body: Value, allowed: set<string>, keys: seq<string>)
    requires keys != [] && NonEmpty(keys) && !Selected(allowed, "", keys)
    ensures Get(Merge(stored, PruneToPaths(body, allowed, "")), keys) == Get(stored, keys)
       <==> !Shadowed(body, allowed, "", keys) || Get(stored, keys) == None
  {
    KeptIsSelected(allowed, "", keys);
    PruneDrops(body, allowed, "", keys);
    MergeElsewhere(stored, PruneToPaths(body, allowed, ""), keys);
    BlockedIsShadowed(body, allowed, "", keys);
  }
}
