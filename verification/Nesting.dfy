/** Turning dotted keys into nested dictionaries. */
module Nesting {
  import opened Wrappers

  /** A value is a leaf or a dictionary. */
  datatype Value = Leaf(text: string) | Node(fields: map<string, Value>)
  type Dict = map<string, Value>

  // ---------------------------------------------------------------- keys

  /** The position of the first dot, or the length. */
  function FirstDot(key: string): (i: nat)
    ensures i <= |key|
  {
    if key == "" || key[0] == '.' then 0 else 1 + FirstDot(key[1..])
  }

  predicate Dotted(key: string) { '.' in key }

  function Child(key: string): string { key[..FirstDot(key)] }

  function SubKey(key: string): string
    requires Dotted(key)
  {
    FirstDotAt(key);
    key[FirstDot(key) + 1..]
  }

  lemma {:induction false} FirstDotAt(key: string)
    ensures Dotted(key) <==> FirstDot(key) < |key|
    ensures FirstDot(key) < |key| ==> key[FirstDot(key)] == '.'
    ensures '.' !in key[..FirstDot(key)]
  {
    if key != "" && key[0] != '.' {
      FirstDotAt(key[1..]);
      assert key == [key[0]] + key[1..];
      assert key[..FirstDot(key)] == [key[0]] + key[1..][..FirstDot(key[1..])];
    }
  }

  function Under(child: string, sub: string): string { child + "." + sub }

  /** Splitting at the first dot and joining again. */
  lemma SplitKey(key: string)
    requires Dotted(key)
    ensures key == Under(Child(key), SubKey(key)) && !Dotted(Child(key)) && |key| == |Child(key)| + 1 + |SubKey(key)|
  {
    FirstDotAt(key);
  }

  lemma {:induction false} UnderSplits(child: string, sub: string)
    requires !Dotted(child)
    ensures Dotted(Under(child, sub)) && Child(Under(child, sub)) == child && SubKey(Under(child, sub)) == sub
  {
    var key := Under(child, sub);
    assert key[|child|] == '.';
    FirstDotAt(key);
    DotOfUnder(child, sub);
  }

  lemma {:induction false} DotOfUnder(child: string, sub: string)
    requires !Dotted(child)
    ensures FirstDot(Under(child, sub)) == |child|
  {
    var key := Under(child, sub);
    if child != "" {
      assert key[1..] == Under(child[1..], sub);
      assert child[0] in child;
      DotOfUnder(child[1..], sub);
    }
  }

  lemma NoDotKey(key: string)
    requires !Dotted(key)
    ensures Child(key) == key
  {
    FirstDotAt(key);
  }

  // ---------------------------------------------------------------- a measure

  /** The text of every path through `v` is shorter than `bound`, dots included. */
  predicate Fits(v: Value, bound: nat)
    decreases v
  {
    v.Node? ==> forall k :: k in v.fields ==> |k| < bound && Fits(v.fields[k], bound - 1 - |k|)
  }

  lemma {:induction false} FitsMore(v: Value, a: nat, b: nat)
    requires Fits(v, a) && a <= b
    ensures Fits(v, b)
    decreases v
  {
    if v.Node? {
      forall k | k in v.fields ensures |k| < b && Fits(v.fields[k], b - 1 - |k|) {
        FitsMore(v.fields[k], a - 1 - |k|, b - 1 - |k|);
      }
    }
  }

  /** Every value has such a bound. */
  lemma {:induction false} HasBound(v: Value) returns (bound: nat)
    ensures Fits(v, bound)
    decreases v, 1, 0
  {
    if v.Node? {
      bound := FieldsBound(v, v.fields.Keys);
    } else {
      bound := 0;
    }
  }

  lemma {:induction false} FieldsBound(v: Value, keys: set<string>) returns (bound: nat)
    requires v.Node? && keys <= v.fields.Keys
    ensures forall k :: k in keys ==> |k| < bound && Fits(v.fields[k], bound - 1 - |k|)
    decreases v, 0, |keys|
  {
    if keys == {} {
      bound := 0;
    } else {
      var k :| k in keys;
      var rest := FieldsBound(v, keys - {k});
      var mine := HasBound(v.fields[k]);
      bound := rest + mine + 1 + |k|;
      FitsMore(v.fields[k], mine, bound - 1 - |k|);
      forall j | j in keys && j != k ensures |j| < bound && Fits(v.fields[j], bound - 1 - |j|) {
        assert j in keys - {k};
        FitsMore(v.fields[j], rest - 1 - |j|, bound - 1 - |j|);
      }
    }
  }

  lemma EntryFits(data: Dict, bound: nat, key: string)
    requires Fits(Node(data), bound) && key in data
    ensures |key| < bound && Fits(data[key], bound - 1 - |key|)
  {
    assert key in Node(data).fields;
  }

  // ---------------------------------------------------------------- what nesting means

  /** The sub-keys of `child` among the dotted keys. */
  function SubKeys(data: Dict, child: string): set<string> {
    set key | key in data && Dotted(key) && Child(key) == child :: SubKey(key)
  }

  lemma SubKeysAt(data: Dict, child: string, sub: string)
    requires !Dotted(child)
    ensures sub in SubKeys(data, child) <==> Under(child, sub) in data
  {
    UnderSplits(child, sub);
    if sub in SubKeys(data, child) {
      var key :| key in data && Dotted(key) && Child(key) == child && SubKey(key) == sub;
      SplitKey(key);
    }
  }

  function Below(data: Dict, child: string): Dict
    requires !Dotted(child)
  {
    map sub | sub in SubKeys(data, child) :: SubKeysAt(data, child, sub); data[Under(child, sub)]
  }

  lemma BelowAt(data: Dict, child: string, sub: string)
    requires !Dotted(child)
    ensures sub in Below(data, child) <==> Under(child, sub) in data
    ensures sub in Below(data, child) ==> Below(data, child)[sub] == data[Under(child, sub)]
  {
    SubKeysAt(data, child, sub);
  }

  function Children(data: Dict): (children: set<string>)
    ensures forall c :: c in children ==> !Dotted(c)
  {
    assert forall key :: !Dotted(Child(key)) by {
      forall key ensures !Dotted(Child(key)) { FirstDotAt(key); }
    }
    set key | key in data :: Child(key)
  }

  // ---------------------------------------------------------------- flattening

  /** The leaf at the end of a dotted path. */
  function Lookup(n: Dict, key: string): Option<Value>
    decreases |key|
  {
    if Dotted(key) then
      SplitKey(key);
      if Child(key) in n && n[Child(key)].Node? then Lookup(n[Child(key)].fields, SubKey(key)) else None
    else if key in n && n[key].Leaf? then Some(n[key])
    else None
  }

  /** `data` is the dotted form of `n`: one entry per leaf, under its path. */
  ghost predicate Flattens(data: Dict, n: Dict) {
    forall key :: FlatAt(data, n, key)
  }

  predicate FlatAt(data: Dict, n: Dict, key: string) {
    (key in data <==> Lookup(n, key).Some?) && (key in data ==> data[key] == Lookup(n, key).value)
  }

  /** Dot-free keys, and no empty dictionary inside. */
  predicate Tree(v: Value)
    decreases v
  {
    v.Node? ==> forall k :: k in v.fields ==> !Dotted(k) && v.fields[k] != Node(map[]) && Tree(v.fields[k])
  }

  lemma {:induction false} HasPath(v: Value) returns (key: string)
    requires v.Node? && Tree(v) && v.fields != map[]
    ensures Lookup(v.fields, key).Some?
    decreases v
  {
    var k :| k in v.fields;
    var sub := v.fields[k];
    if sub.Leaf? {
      key := k;
    } else {
      assert sub == Node(sub.fields);
      var rest := HasPath(sub);
      key := Under(k, rest);
      UnderSplits(k, rest);
    }
  }

  lemma LookupUnder(n: Dict, c: string, sub: string)
    requires !Dotted(c)
    ensures Lookup(n, Under(c, sub)) == if c in n && n[c].Node? then Lookup(n[c].fields, sub) else None
  {
    UnderSplits(c, sub);
  }

  lemma ChildrenAreKeys(data: Dict, n: Dict)
    requires Tree(Node(n)) && Flattens(data, n)
    ensures forall c :: c in Children(data) <==> c in n
    ensures forall c :: c in n ==> (c in data <==> n[c].Leaf?) && (c in data ==> data[c] == n[c])
  {
    forall c | c in Children(data) ensures c in n {
      var key :| key in data && Child(key) == c;
      assert FlatAt(data, n, key);
      if !Dotted(key) { NoDotKey(key); }
    }
    forall c | c in n
      ensures c in Children(data) && (c in data <==> n[c].Leaf?) && (c in data ==> data[c] == n[c])
    {
      NoDotKey(c);
      assert FlatAt(data, n, c);
      if n[c].Node? {
        assert n[c] == Node(n[c].fields) && n[c].fields != map[];
        var sub := HasPath(n[c]);
        LookupUnder(n, c, sub);
        UnderSplits(c, sub);
        assert FlatAt(data, n, Under(c, sub));
      }
    }
  }

  lemma BelowFlattens(data: Dict, n: Dict, c: string)
    requires Tree(Node(n)) && Flattens(data, n) && c in n && n[c].Node?
    ensures Flattens(Below(data, c), n[c].fields)
  {
    forall sub ensures FlatAt(Below(data, c), n[c].fields, sub) {
      BelowAt(data, c, sub);
      LookupUnder(n, c, sub);
      assert FlatAt(data, n, Under(c, sub));
    }
  }

  // ---------------------------------------------------------------- every tree has one dotted form

  /** The dotted paths to the leaves below a value. */
  function Paths(v: Value): set<string>
    decreases v
  {
    if v.Leaf? then {}
    else (set k | k in v.fields && v.fields[k].Leaf?)
         + (set k, sub | k in v.fields && sub in Paths(v.fields[k]) :: Under(k, sub))
  }

  lemma {:induction false} PathsAreLeaves(n: Dict, key: string)
    requires Tree(Node(n))
    ensures key in Paths(Node(n)) <==> Lookup(n, key).Some?
    decreases |key|
  {
    var v := Node(n);
    if Dotted(key) {
      SplitKey(key);
      var c, rest := Child(key), SubKey(key);
      forall k, sub | k in v.fields && sub in Paths(v.fields[k]) && Under(k, sub) == key ensures k == c && sub == rest {
        UnderSplits(k, sub);
      }
      if c in n && n[c].Node? {
        SubTree(n, c);
        assert n[c] == Node(n[c].fields);
        PathsAreLeaves(n[c].fields, rest);
      }
    } else {
      forall k, sub | k in v.fields && sub in Paths(v.fields[k]) ensures Under(k, sub) != key {
        UnderSplits(k, sub);
      }
    }
  }

  function DottedForm(n: Dict): Dict
    requires Tree(Node(n))
  {
    map key | key in Paths(Node(n)) :: PathsAreLeaves(n, key); Lookup(n, key).value
  }

  lemma FormAt(n: Dict, key: string)
    requires Tree(Node(n))
    ensures FlatAt(DottedForm(n), n, key)
  {
    PathsAreLeaves(n, key);
  }

  /** The dotted form of a tree is one, and the only one. */
  lemma DottedFormFlattens(data: Dict, n: Dict)
    requires Tree(Node(n))
    ensures Flattens(data, n) <==> data == DottedForm(n)
  {
    var form := DottedForm(n);
    forall key ensures FlatAt(form, n, key) {
      FormAt(n, key);
    }
    if Flattens(data, n) {
      forall key ensures (key in data <==> key in form) && (key in data ==> data[key] == form[key]) {
        assert FlatAt(data, n, key) && FlatAt(form, n, key);
      }
    }
  }

  lemma SubTree(n: Dict, c: string)
    requires Tree(Node(n)) && c in n && n[c].Node?
    ensures Tree(Node(n[c].fields))
  {
    assert n[c] == Node(n[c].fields) && c in Node(n).fields;
  }

  // ---------------------------------------------------------------- the function itself

  /** No key that is also the beginning of a dotted one. */
  ghost predicate Apart(data: Dict) {
    forall key, sub :: Ends(data, key, sub)
  }

  /** Leaves only, besides. */
  ghost predicate Clean(data: Dict) {
    Apart(data) && forall key :: key in data ==> data[key].Leaf?
  }

  predicate Ends(data: Dict, key: string, sub: string) {
    key in data ==> Under(key, sub) !in data
  }

  lemma UnderUnder(a: string, b: string, c: string)
    ensures Under(Under(a, b), c) == Under(a, Under(b, c))
  {
  }

  /** A path to a leaf does not go on. */
  lemma {:induction false} PathEnds(n: Dict, key: string, sub: string)
    requires Lookup(n, key).Some?
    ensures Lookup(n, key).value.Leaf? && Lookup(n, Under(key, sub)).None?
    decreases |key|
  {
    if Dotted(key) {
      SplitKey(key);
      FirstDotAt(key);
      PathEnds(n[Child(key)].fields, SubKey(key), sub);
      UnderUnder(Child(key), SubKey(key), sub);
      LookupUnder(n, Child(key), Under(SubKey(key), sub));
    } else {
      LookupUnder(n, key, sub);
    }
  }

  lemma FlattenedIsClean(data: Dict, n: Dict)
    requires Flattens(data, n)
    ensures Clean(data)
  {
    forall key | key in data ensures data[key].Leaf? {
      assert FlatAt(data, n, key);
      PathEnds(n, key, "");
    }
    forall key, sub ensures Ends(data, key, sub) {
      assert FlatAt(data, n, key) && FlatAt(data, n, Under(key, sub));
      if key in data { PathEnds(n, key, sub); }
    }
  }

  /** The first loop's dictionary over such data, when the keys of `part` are processed. */
  function Gathered(part: Dict): Dict {
    map c | c in Children(part) :: GatheredAt(part, c)
  }

  function GatheredAt(part: Dict, c: string): Value
    requires !Dotted(c)
  {
    if c in part then part[c] else Node(Below(part, c))
  }

  lemma BelowMore(part: Dict, key: string, v: Value, c: string)
    requires !Dotted(c)
    ensures Below(part[key := v], c)
         == if Dotted(key) && Child(key) == c then Below(part, c)[SubKey(key) := v] else Below(part, c)
  {
    var more := part[key := v];
    var expected := if Dotted(key) && Child(key) == c then Below(part, c)[SubKey(key) := v] else Below(part, c);
    forall sub
      ensures (sub in Below(more, c) <==> sub in expected) && (sub in expected ==> Below(more, c)[sub] == expected[sub])
    {
      BelowAt(more, c, sub);
      BelowAt(part, c, sub);
      UnderSplits(c, sub);
      if Dotted(key) { SplitKey(key); }
    }
  }

  lemma NothingBelow(part: Dict, c: string)
    requires !Dotted(c) && c !in Children(part)
    ensures Below(part, c) == map[]
  {
    forall sub ensures sub !in Below(part, c) {
      BelowAt(part, c, sub);
      UnderSplits(c, sub);
    }
  }

  lemma ChildrenMore(part: Dict, key: string, v: Value)
    ensures Children(part[key := v]) == Children(part) + {Child(key)}
  {
  }

  lemma OthersStay(part: Dict, key: string, v: Value, c: string)
    requires !Dotted(c) && c != Child(key)
    ensures GatheredAt(part[key := v], c) == GatheredAt(part, c)
  {
    BelowMore(part, key, v, c);
    if !Dotted(key) { NoDotKey(key); }
  }

  /** One more key. */
  lemma GatherKey(part: Dict, key: string, v: Value)
    requires !Dotted(key)
    ensures Gathered(part[key := v]) == Gathered(part)[key := v]
  {
    NoDotKey(key);
    ChildrenMore(part, key, v);
    forall c | c in Children(part) && c != key ensures GatheredAt(part[key := v], c) == GatheredAt(part, c) {
      OthersStay(part, key, v, c);
    }
  }

  lemma GatherMine(part: Dict, key: string, v: Value)
    requires Dotted(key) && Child(key) !in part
    ensures !Dotted(Child(key))
    ensures GatheredAt(part[key := v], Child(key)) == Node(Below(part, Child(key))[SubKey(key) := v])
    ensures Child(key) !in Children(part) ==> Below(part, Child(key)) == map[]
  {
    FirstDotAt(key);
    BelowMore(part, key, v, Child(key));
    if Child(key) !in Children(part) {
      NothingBelow(part, Child(key));
    }
  }

  lemma GatherDotted(part: Dict, key: string, v: Value)
    requires Dotted(key) && Child(key) !in part
    ensures !Dotted(Child(key))
    ensures Gathered(part[key := v]) == Gathered(part)[Child(key) := Node(Below(part, Child(key))[SubKey(key) := v])]
    ensures if Child(key) in Gathered(part) then Gathered(part)[Child(key)] == Node(Below(part, Child(key)))
            else Below(part, Child(key)) == map[]
  {
    GatherMine(part, key, v);
    ChildrenMore(part, key, v);
    var mine := Node(Below(part, Child(key))[SubKey(key) := v]);
    forall c | c in Children(part) && c != Child(key) ensures GatheredAt(part[key := v], c) == GatheredAt(part, c) {
      OthersStay(part, key, v, c);
    }
    SameGathered(part, part[key := v], Child(key), mine);
  }

  lemma SameGathered(part: Dict, more: Dict, mine: string, v: Value)
    requires !Dotted(mine) && Children(more) == Children(part) + {mine} && GatheredAt(more, mine) == v
    requires forall c :: c in Children(part) && c != mine ==> GatheredAt(more, c) == GatheredAt(part, c)
    ensures Gathered(more) == Gathered(part)[mine := v]
  {
  }

  // ---------------------------------------------------------------- the two loops

  ghost predicate Plain(data: Dict) {
    forall key :: key in data ==> !Dotted(key)
  }

  lemma DottedFits(data: Dict, bound: nat, key: string, sub: Dict)
    requires Fits(Node(data), bound) && key in data && Dotted(key) && Fits(Node(sub), bound)
    ensures var c := Child(key);
            var fields := if c in sub && sub[c].Node? then sub[c].fields[SubKey(key) := data[key]]
              else map[SubKey(key) := data[key]];
            Fits(Node(sub[c := Node(fields)]), bound)
  {
    EntryFits(data, bound, key);
    SplitKey(key);
    var c := Child(key);
    if c in sub {
      EntryFits(sub, bound, c);
    }
    var fields := if c in sub && sub[c].Node? then sub[c].fields[SubKey(key) := data[key]]
      else map[SubKey(key) := data[key]];
    var b := bound - 1 - |c|;
    forall k | k in fields ensures |k| < b && Fits(fields[k], b - 1 - |k|) {
      if k != SubKey(key) {
        assert k in sub[c].fields;
      }
    }
    FieldsFit(fields, b);
    PutFits(sub, bound, c, Node(fields));
  }

  lemma FieldsFit(fields: Dict, bound: nat)
    requires forall k :: k in fields ==> |k| < bound && Fits(fields[k], bound - 1 - |k|)
    ensures Fits(Node(fields), bound)
  {
  }

  lemma PutFits(sub: Dict, bound: nat, key: string, v: Value)
    requires Fits(Node(sub), bound) && |key| < bound && Fits(v, bound - 1 - |key|)
    ensures Fits(Node(sub[key := v]), bound)
  {
    var after := sub[key := v];
    forall k | k in after ensures |k| < bound && Fits(after[k], bound - 1 - |k|) {
      if k != key { EntryFits(sub, bound, k); }
    }
    FieldsFit(after, bound);
  }

  /** Every first part of a dotted key is among those to nest. */
  ghost predicate Covered(part: Dict, nested: seq<string>) {
    forall key :: key in part && Dotted(key) ==> Child(key) in nested
  }

  /** What is to be nested is there. */
  ghost predicate Present(sub: Dict, nested: seq<string>) {
    forall c :: c in nested ==> c in sub
  }

  /** What is to be nested is a dictionary, and no key of the data. */
  ghost predicate Nestable(sub: Dict, data: Dict, nested: seq<string>) {
    forall c :: c in nested ==> c in sub && sub[c].Node? && c !in data
  }

  /** A dotted key leaves its child to be nested. */
  lemma NestMore(sub: Dict, nested: seq<string>, data: Dict, part: Dict, key: string, v: Value)
    requires Dotted(key) && key in data && v.Node? && Plain(sub) && Present(sub, nested) && Covered(part, nested)
    ensures var (more, all) := (sub[Child(key) := v], nested + [Child(key)]);
            && Plain(more) && Present(more, all) && Covered(part[key := data[key]], all)
            && (Nestable(sub, data, nested) && Child(key) !in data ==> Nestable(more, data, all))
  {
    FirstDotAt(key);
  }

  /** A plain key is no child that was left to be nested. */
  lemma PutMore(sub: Dict, nested: seq<string>, data: Dict, part: Dict, key: string)
    requires !Dotted(key) && key in data && Plain(sub) && Present(sub, nested) && Covered(part, nested)
    ensures var more := sub[key := data[key]];
            && Plain(more) && Present(more, nested) && Covered(part[key := data[key]], nested)
            && (Nestable(sub, data, nested) ==> Nestable(more, data, nested))
  {
  }

  /** Where a dotted key's value goes. */
  function PutUnder(sub: Dict, key: string, v: Value): Dict
    requires Dotted(key)
  {
    var c := Child(key);
    sub[c := Node(if c in sub && sub[c].Node? then sub[c].fields[SubKey(key) := v] else map[SubKey(key) := v])]
  }

  lemma PutUnderGathered(data: Dict, part: Dict, key: string)
    requires Apart(data) && key in data && Dotted(key) && forall k :: k in part ==> k in data && part[k] == data[k]
    ensures Child(key) !in data && PutUnder(Gathered(part), key, data[key]) == Gathered(part[key := data[key]])
  {
    SplitKey(key);
    assert Ends(data, Child(key), SubKey(key));
    GatherDotted(part, key, data[key]);
    assert Below(part, Child(key)) == map[] ==>
           Below(part, Child(key))[SubKey(key) := data[key]] == map[SubKey(key) := data[key]];
  }

  /** The body of the first loop. */
  method GatherOne(sub: Dict, nested: seq<string>, data: Dict, key: string, ghost bound: nat, ghost part: Dict)
    returns (subNow: Dict, nestedNow: seq<string>)
    requires Fits(Node(data), bound) && key in data && Fits(Node(sub), bound) && Plain(sub)
    requires Apart(data) ==> sub == Gathered(part) && forall k :: k in part ==> k in data && part[k] == data[k]
    requires Present(sub, nested) && Covered(part, nested) && (Apart(data) ==> Nestable(sub, data, nested))
    ensures Fits(Node(subNow), bound) && Plain(subNow)
    ensures Present(subNow, nestedNow) && Covered(part[key := data[key]], nestedNow)
    ensures !Dotted(key) ==> subNow == sub[key := data[key]] && nestedNow == nested
    ensures Apart(data) ==> subNow == Gathered(part[key := data[key]]) && Nestable(subNow, data, nestedNow)
  {
    if '.' in key {
      subNow, nestedNow := GatherUnder(sub, nested, data, key, bound, part);
    } else {
      EntryFits(data, bound, key);
      PutFits(sub, bound, key, data[key]);
      PutMore(sub, nested, data, part, key);
      if Apart(data) {
        GatherKey(part, key, data[key]);
      }
      subNow, nestedNow := sub[key := data[key]], nested;
    }
  }

  method GatherUnder(sub: Dict, nested: seq<string>, data: Dict, key: string, ghost bound: nat, ghost part: Dict)
    returns (subNow: Dict, nestedNow: seq<string>)
    requires Dotted(key) && Fits(Node(data), bound) && key in data && Fits(Node(sub), bound) && Plain(sub)
    requires Apart(data) ==> sub == Gathered(part) && forall k :: k in part ==> k in data && part[k] == data[k]
    requires Present(sub, nested) && Covered(part, nested) && (Apart(data) ==> Nestable(sub, data, nested))
    ensures Fits(Node(subNow), bound) && Plain(subNow)
    ensures Present(subNow, nestedNow) && Covered(part[key := data[key]], nestedNow)
    ensures Apart(data) ==> subNow == Gathered(part[key := data[key]]) && Nestable(subNow, data, nestedNow)
  {
    var child, subKey := Child(key), SubKey(key);
    nestedNow := nested + [child];
    if child in sub && sub[child].Node? {
      subNow := sub[child := Node(sub[child].fields[subKey := data[key]])];
    } else {
      subNow := sub[child := Node(map[subKey := data[key]])];
    }
    DottedFits(data, bound, key, sub);
    assert subNow == PutUnder(sub, key, data[key]);
    NestMore(sub, nested, data, part, key, subNow[child]);
    if Apart(data) {
      PutUnderGathered(data, part, key);
    }
  }

  /** The data of the keys processed when `rest` is left. */
  function Processed(data: Dict, rest: set<string>): Dict {
    map key | key in data && key !in rest :: data[key]
  }

  lemma ProcessedMore(data: Dict, rest: set<string>, key: string)
    requires key in rest && key in data
    ensures Processed(data, rest - {key}) == Processed(data, rest)[key := data[key]]
  {
  }

  lemma ProcessedAll(data: Dict)
    ensures Processed(data, {}) == data && Processed(data, data.Keys) == map[]
  {
  }

  /** The first loop: dotted keys are gathered under their first part, over whatever else is found there. */
  method Gather(data: Dict, ghost bound: nat) returns (sub: Dict, nested: seq<string>)
    requires Fits(Node(data), bound)
    ensures Fits(Node(sub), bound) && Plain(sub)
    ensures Present(sub, nested) && Covered(data, nested)
    ensures Plain(data) ==> sub == data && nested == []
    ensures Apart(data) ==> sub == Gathered(data) && Nestable(sub, data, nested)
  {
    sub, nested := map[], [];
    var rest := data.Keys;
    ProcessedAll(data);
    while rest != {}
      invariant rest <= data.Keys
      invariant Fits(Node(sub), bound) && Plain(sub)
      invariant Present(sub, nested) && Covered(Processed(data, rest), nested)
      invariant Plain(data) ==> sub == Processed(data, rest) && nested == []
      invariant Apart(data) ==> sub == Gathered(Processed(data, rest)) && Nestable(sub, data, nested)
      decreases |rest|
    {
      var key :| key in rest;
      ProcessedMore(data, rest, key);
      sub, nested := GatherOne(sub, nested, data, key, bound, Processed(data, rest));
      rest := rest - {key};
    }
  }

  // ---------------------------------------------------------------- what comes out

  /** `v` is the nested form of `data`: under each child the value of that key, or the nested form of what is below. */
  ghost predicate NestedAs(data: Dict, v: Value)
    decreases v
  {
    && v.Node? && v.fields.Keys == Children(data)
    && forall c :: c in v.fields ==>
         if c in data then v.fields[c] == data[c] else NestedAs(Below(data, c), v.fields[c])
  }

  /** There is one nested form at most. */
  lemma {:induction false} NestedOnce(data: Dict, a: Value, b: Value)
    requires NestedAs(data, a) && NestedAs(data, b)
    ensures a == b
    decreases a
  {
    forall c | c in a.fields ensures a.fields[c] == b.fields[c] {
      if c !in data {
        NestedOnce(Below(data, c), a.fields[c], b.fields[c]);
      }
    }
    assert a.fields == b.fields;
  }

  /** A tree is the nested form of its dotted form. */
  lemma {:induction false} FlattensNests(data: Dict, v: Value)
    requires v.Node? && Tree(v) && Flattens(data, v.fields)
    ensures NestedAs(data, v)
    decreases v
  {
    var n := v.fields;
    assert v == Node(n);
    ChildrenAreKeys(data, n);
    forall c | c in n && c !in data ensures NestedAs(Below(data, c), n[c]) {
      SubTree(n, c);
      BelowFlattens(data, n, c);
      FlattensNests(Below(data, c), n[c]);
    }
  }

  /** What is at the end of a dotted path. */
  function Walk(v: Value, key: string): Option<Value>
    decreases |key|
  {
    if v.Leaf? then None
    else if Dotted(key) then
      SplitKey(key);
      if Child(key) in v.fields then Walk(v.fields[Child(key)], SubKey(key)) else None
    else if key in v.fields then Some(v.fields[key])
    else None
  }

  lemma ApartBelow(data: Dict, c: string)
    requires Apart(data) && !Dotted(c)
    ensures Apart(Below(data, c))
  {
    forall key, sub ensures Ends(Below(data, c), key, sub) {
      BelowAt(data, c, key);
      BelowAt(data, c, Under(key, sub));
      UnderUnder(c, key, sub);
      assert Ends(data, Under(c, key), sub);
    }
  }

  /** Nothing is lost: each value is at the end of its key. */
  lemma {:induction false} NestedHolds(data: Dict, v: Value, key: string)
    requires Apart(data) && NestedAs(data, v) && key in data
    ensures Walk(v, key) == Some(data[key])
    decreases |key|
  {
    if Dotted(key) {
      SplitKey(key);
      var c := Child(key);
      assert Ends(data, c, SubKey(key)) && c in Children(data);
      BelowAt(data, c, SubKey(key));
      ApartBelow(data, c);
      NestedHolds(Below(data, c), v.fields[c], SubKey(key));
    } else {
      NoDotKey(key);
      assert key in Children(data);
    }
  }

  /** The path leads to a key, on from one, or towards one. */
  ghost predicate FromKeys(data: Dict, path: string) {
    || path in data
    || (exists key, rest :: key in data && path == Under(key, rest))
    || (exists rest :: Under(path, rest) in data)
  }

  lemma FromBelow(data: Dict, c: string, path: string)
    requires !Dotted(c) && FromKeys(Below(data, c), path)
    ensures FromKeys(data, Under(c, path))
  {
    BelowAt(data, c, path);
    if key, rest :| key in Below(data, c) && path == Under(key, rest) {
      BelowAt(data, c, key);
      UnderUnder(c, key, rest);
    } else if rest :| Under(path, rest) in Below(data, c) {
      BelowAt(data, c, Under(path, rest));
      UnderUnder(c, path, rest);
    }
  }

  /** Nothing is made up: every path comes from the keys. */
  lemma {:induction false} NestedAddsNothing(data: Dict, v: Value, path: string)
    requires NestedAs(data, v) && Walk(v, path).Some?
    ensures FromKeys(data, path)
    decreases |path|
  {
    if Dotted(path) {
      SplitKey(path);
      var c := Child(path);
      FirstDotAt(path);
      if c !in data {
        NestedAddsNothing(Below(data, c), v.fields[c], SubKey(path));
        FromBelow(data, c, SubKey(path));
      }
    } else if path !in data {
      var key :| key in data && Child(key) == path;
      if Dotted(key) { SplitKey(key); } else { NoDotKey(key); }
    }
  }

  // ---------------------------------------------------------------- the second loop

  /** The second loop's dictionary when the children in `done` are nested. */
  ghost predicate Halfway(data: Dict, sub: Dict, done: set<string>) {
    && sub.Keys == Children(data)
    && forall c :: c in sub ==> HalfwayAt(data, sub[c], c, done)
  }

  ghost predicate HalfwayAt(data: Dict, v: Value, c: string, done: set<string>)
    requires !Dotted(c)
  {
    if c in data then v == data[c]
    else if c in done then NestedAs(Below(data, c), v)
    else v == Node(Below(data, c))
  }

  ghost predicate Done(data: Dict, done: set<string>) {
    forall key :: key in data && Dotted(key) ==> Child(key) in done
  }

  lemma HalfwayDone(data: Dict, sub: Dict, done: set<string>)
    requires Halfway(data, sub, done) && Done(data, done)
    ensures NestedAs(data, Node(sub))
  {
    forall c | c in sub && c !in data ensures c in done {
      var key :| key in data && Child(key) == c;
      if !Dotted(key) { NoDotKey(key); }
    }
  }

  lemma HalfwayStart(data: Dict, sub: Dict)
    ensures sub == Gathered(data) ==> Halfway(data, sub, {})
  {
  }

  /** The first `i` of the children. */
  ghost function First(nested: seq<string>, i: nat): set<string>
    requires i <= |nested|
  {
    set c | c in nested[..i]
  }

  lemma FirstMore(nested: seq<string>, i: nat)
    requires i < |nested|
    ensures First(nested, i + 1) == First(nested, i) + {nested[i]}
    ensures First(nested, 0) == {}
  {
    assert nested[..i + 1] == nested[..i] + [nested[i]];
  }

  lemma AllDone(data: Dict, nested: seq<string>)
    requires Covered(data, nested)
    ensures Done(data, First(nested, |nested|))
  {
    assert nested[..|nested|] == nested;
  }

  /** Nesting one more child, or one again that is nested already. */
  lemma HalfwayMore(data: Dict, sub: Dict, done: set<string>, c: string, inner: Dict)
    requires Halfway(data, sub, done) && c in sub && c !in data && sub[c].Node?
    requires Apart(sub[c].fields) ==> NestedAs(sub[c].fields, Node(inner))
    requires Plain(sub[c].fields) ==> inner == sub[c].fields
    requires c !in done ==> Apart(sub[c].fields)
    ensures Halfway(data, sub[c := Node(inner)], done + {c})
  {
    var more := sub[c := Node(inner)];
    assert more.Keys == sub.Keys;
    assert NestedAs(Below(data, c), Node(inner)) by {
      if c in done {
        assert NestedAs(Below(data, c), sub[c]);
        assert sub[c] == Node(sub[c].fields);
      }
    }
    forall x | x in more ensures HalfwayAt(data, more[x], x, done + {c}) {
      assert HalfwayAt(data, sub[x], x, done);
    }
  }

  /** `flat_to_nested`, over the keys in any order: the nested form of its argument, unless one key begins another, when
      the order of the keys decides and `None` stands for the exception of nesting a leaf. A bound on the length of all
      paths goes down with each nested call, also with the repeated ones. */
  method FlatToNested(data: Dict, ghost bound: nat) returns (r: Option<Dict>)
    requires Fits(Node(data), bound)
    ensures r.Some? ==> Fits(Node(r.value), bound) && Plain(r.value)
    ensures Plain(data) ==> r == Some(data)
    ensures Apart(data) ==> r.Some? && NestedAs(data, Node(r.value))
    decreases bound, 1
  {
    var sub, nested := Gather(data, bound);
    var i := 0;
    HalfwayStart(data, sub);
    while i < |nested|
      invariant 0 <= i <= |nested| && Fits(Node(sub), bound) && Plain(sub)
      invariant Present(sub, nested)
      invariant Plain(data) ==> sub == data
      invariant Apart(data) ==> Halfway(data, sub, First(nested, i)) && Nestable(sub, data, nested)
    {
      FirstMore(nested, i);
      var next := NestChild(sub, nested[i], data, bound, First(nested, i));
      if next.None? {
        return None;
      }
      sub := next.value;
      i := i + 1;
    }
    if Apart(data) {
      AllDone(data, nested);
      HalfwayDone(data, sub, First(nested, |nested|));
    }
    return Some(sub);
  }

  /** The body of the second loop. */
  method NestChild(sub: Dict, key: string, ghost data: Dict, ghost bound: nat, ghost done: set<string>)
    returns (r: Option<Dict>)
    requires Fits(Node(sub), bound) && Plain(sub) && key in sub
    requires Apart(data) ==> Halfway(data, sub, done) && key !in data
    ensures r.Some? ==> Fits(Node(r.value), bound) && Plain(r.value) && r.value.Keys == sub.Keys
    ensures Apart(data) ==> r.Some? && Halfway(data, r.value, done + {key})
    ensures r.Some? ==> forall c :: c in r.value && sub[c].Node? ==> r.value[c].Node?
    decreases bound, 0
  {
    EntryFits(sub, bound, key);
    if Apart(data) {
      ChildOf(data, sub, done, key);
    }
    if sub[key].Leaf? {
      return None;
    }
    assert Node(sub[key].fields) == sub[key];
    var inner := FlatToNested(sub[key].fields, bound - 1 - |key|);
    if inner.None? {
      return None;
    }
    PutFits(sub, bound, key, Node(inner.value));
    if Apart(data) {
      HalfwayMore(data, sub, done, key, inner.value);
    }
    return Some(sub[key := Node(inner.value)]);
  }

  /** What the nested call on a child is given: what is below the child, or, at a repetition, its nested form. */
  lemma ChildOf(data: Dict, sub: Dict, done: set<string>, c: string)
    requires Apart(data) && Halfway(data, sub, done) && c in sub && c !in data
    ensures sub[c].Node? && Apart(sub[c].fields)
    ensures c in done ==> Plain(sub[c].fields)
  {
    ApartBelow(data, c);
    if c in done {
      PlainIsApart(sub[c].fields);
    }
  }

  lemma PlainIsApart(data: Dict)
    requires Plain(data)
    ensures Apart(data)
  {
    forall key, sub ensures Ends(data, key, sub) {
      assert Under(key, sub)[|key|] == '.';
    }
  }

  /** Nesting undoes flattening. */
  lemma NestingUndoes(data: Dict, n: Dict, r: Dict)
    requires Tree(Node(n)) && Flattens(data, n)
    ensures Apart(data) && (NestedAs(data, Node(r)) <==> r == n)
  {
    FlattenedIsClean(data, n);
    FlattensNests(data, Node(n));
    if NestedAs(data, Node(r)) {
      NestedOnce(data, Node(n), Node(r));
    }
  }
}
