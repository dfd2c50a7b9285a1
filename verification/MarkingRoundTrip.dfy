/** Parsing inverts printing: the parts of a marking survive being printed and parsed again,
    with the level raised to the one its required items ask for, exactly when its dynamic
    groups can be written in a REL marking. */
module MarkingRoundTrip {
  import opened Wrappers
  import opened Strings
  import opened Marking
  import opened MarkingText

  // ---------------------------------------------------------------- group tokens

  /** A group that is not configured: it was named in a REL marking and kept as a dynamic group. */
  ghost predicate DynamicToken(d: Definition, g: string) {
    GroupOf(d, g).None? && IsUpper(g) && '/' !in g && ',' !in g && Trimmed(g)
  }

  ghost predicate Token(d: Definition, g: string) {
    g in d.groupStl || DynamicToken(d, g)
  }

  /** The only group, not a configured one, spells the name of an item with a solitary display
      name of its own. */
  predicate Collides(d: Definition, g: string) {
    g !in d.groupStl && ParamsOf(d, g).solitary.Some? && ParamsOf(d, g).solitary.value != g
  }

  /** What can be written in a REL marking and read back. */
  ghost predicate Printable(d: Definition, groups: set<string>) {
    && (forall g :: g in groups && Contains(g, "REL ") ==> g in d.groupStl)
    && (forall g :: groups == {g} ==> !Collides(d, g))
  }

  lemma ShownGroupFacts(d: Definition, long: bool, g: string)
    requires WellFormed(d) && Token(d, g)
    ensures var n := ShownGroup(d, long, g);
            && (g in d.groupStl ==> GroupOf(d, n) == Some({g}) && Name(n) && ParamsOf(d, n) == d.params[g])
            && (g !in d.groupStl ==> n == g)
            && '/' !in n && ',' !in n && IsUpper(n) && Strip(n) == n
  {
    var n := ShownGroup(d, long, g);
    if g in d.groupStl {
      ResolveShown(d.groupStl, d.groupLts, d.params, d.groupAliases, g, n);
    }
    StripTrimmed(n);
  }

  lemma ShownGroupInjective(d: Definition, long: bool, g: string, h: string)
    requires WellFormed(d) && Token(d, g) && Token(d, h)
    requires ShownGroup(d, long, g) == ShownGroup(d, long, h)
    ensures g == h
  {
    ShownGroupFacts(d, long, g);
    ShownGroupFacts(d, long, h);
    if g in d.groupStl && h in d.groupStl {
      assert Some({g}) == Some({h});
      assert g in {h};
    }
  }

  /** Every group resolves from the name it is shown by. */
  ghost predicate Resolvable(d: Definition, long: bool, gs: set<string>) {
    forall g :: g in gs ==>
      GroupOf(d, ShownGroup(d, long, g)) == if g in d.groupStl then Some({g}) else None
  }

  lemma TokensResolve(d: Definition, long: bool, gs: set<string>)
    requires WellFormed(d) && forall g :: g in gs ==> Token(d, g)
    ensures Resolvable(d, long, gs)
  {
    forall g | g in gs
      ensures GroupOf(d, ShownGroup(d, long, g)) == if g in d.groupStl then Some({g}) else None
    {
      ShownGroupFacts(d, long, g);
    }
  }

  lemma KnownOfShown(d: Definition, long: bool, gs: set<string>)
    requires Resolvable(d, long, gs)
    ensures Known(d, ShownGroups(d, long, gs)) == gs * d.groupStl.Keys
  {
    var ns := ShownGroups(d, long, gs);
    forall g | g in gs * d.groupStl.Keys ensures g in Known(d, ns) {
      assert ShownGroup(d, long, g) in ns;
      assert g in GroupOf(d, ShownGroup(d, long, g)).value;
    }
    forall x | x in Known(d, ns) ensures x in gs * d.groupStl.Keys {
      var t :| t in ns && GroupOf(d, t).Some? && x in GroupOf(d, t).value;
      var g :| g in gs && t == ShownGroup(d, long, g);
    }
  }

  lemma UnknownOfShown(d: Definition, long: bool, gs: set<string>)
    requires Resolvable(d, long, gs)
    ensures Unknown(d, ShownGroups(d, long, gs)) == gs - d.groupStl.Keys
  {
    var ns := ShownGroups(d, long, gs);
    forall g | g in gs - d.groupStl.Keys ensures g in Unknown(d, ns) {
      assert ShownGroup(d, long, g) in ns;
    }
    forall t | t in Unknown(d, ns) ensures t in gs - d.groupStl.Keys {
      var g :| g in gs && t == ShownGroup(d, long, g);
    }
  }

  // ---------------------------------------------------------------- reading a group marking

  lemma MeaningOfList(d: Definition, names: seq<string>)
    requires WellFormed(d) && names != [] && forall n :: n in names ==> ',' !in n
    ensures var ts := set n | n in names :: Strip(Clean(n));
            Meaning(d, "REL TO " + Join(", ", names)) == Found({}, Known(d, ts), {}, Unknown(d, ts), false)
  {
    var p := "REL TO " + Join(", ", names);
    TokensOfList(names);
    if p in ReqNames(d) {
      ReqNameIsName(d, p);
      RelIsNoName(p, Join(", ", names));
      assert false;
    }
  }

  lemma MeaningOfSolitary(d: Definition, g: string, shown: string)
    requires WellFormed(d) && g in d.groupStl && d.params[g].solitary == Some(shown)
    ensures Meaning(d, shown) == Found({}, {g}, {}, {}, false)
    ensures Piece(shown)
  {
    RelIsNoName(shown, "");
    assert Elems([g]) == {g};
  }

  lemma {:induction false} FoldAliasFacts(d: Definition, order: seq<string>, groups: seq<string>)
    requires |groups| > 1 && forall a :: a in order ==> a in d.groupAliases
    ensures var shown := FoldAlias(d, order, groups);
            || shown == groups
            || exists a :: a in order && shown == [a] && |d.groupAliases[a]| > 1 && Sort(d.groupAliases[a]) == groups
  {
    if order != [] {
      var a := order[0];
      assert a in order;
      if |d.groupAliases[a]| > 1 && Sort(d.groupAliases[a]) == groups {
        FoldAliasStops(d, order[1..], a);
      } else {
        FoldAliasFacts(d, order[1..], groups);
        assert forall x :: x in order[1..] ==> x in order;
      }
    }
  }

  lemma {:induction false} FoldAliasStops(d: Definition, order: seq<string>, a: string)
    requires forall x :: x in order ==> x in d.groupAliases
    ensures FoldAlias(d, order, [a]) == [a]
  {
    if order != [] {
      SortMembers(d.groupAliases[order[0]]);
      FoldAliasStops(d, order[1..], a);
    }
  }

  /** The tokens a list of shown groups is read back as. */
  ghost function Reread(d: Definition, long: bool, gs: set<string>): set<string> {
    set g | g in gs :: Strip(Clean(ShownGroup(d, long, g)))
  }

  lemma RereadClean(d: Definition, long: bool, gs: set<string>)
    requires WellFormed(d) && forall g :: g in gs ==> Token(d, g)
    requires forall g :: g in gs && Contains(g, "REL ") ==> g in d.groupStl
    ensures Reread(d, long, gs) == ShownGroups(d, long, gs)
  {
    forall g | g in gs ensures Strip(Clean(ShownGroup(d, long, g))) == ShownGroup(d, long, g) {
      ShownGroupFacts(d, long, g);
      CleanFacts(ShownGroup(d, long, g));
    }
  }

  lemma StripCleanOfSort(d: Definition, long: bool, gs: set<string>, shown: seq<string>)
    requires Elems(shown) == ShownGroups(d, long, gs)
    ensures (set n | n in Sort(shown) :: Strip(Clean(n))) == Reread(d, long, gs)
  {
    ElemsSort(shown);
    forall g | g in gs ensures Strip(Clean(ShownGroup(d, long, g))) in set n | n in Sort(shown) :: Strip(Clean(n)) {
      assert ShownGroup(d, long, g) in Elems(Sort(shown));
    }
    forall n | n in Sort(shown) ensures Strip(Clean(n)) in Reread(d, long, gs) {
      assert n in Elems(Sort(shown));
      var g :| g in gs && n == ShownGroup(d, long, g);
    }
  }

  ghost predicate Shows(d: Definition, long: bool, gs: set<string>, shown: seq<string>) {
    && Elems(shown) == ShownGroups(d, long, gs)
    && |shown| == |ShownGroups(d, long, gs)|
    && (forall g :: g in gs ==> Token(d, g))
  }

  lemma TokensInjective(d: Definition, long: bool, gs: set<string>)
    requires WellFormed(d) && forall g :: g in gs ==> Token(d, g)
    ensures forall x, y :: x in gs && y in gs && ShownGroup(d, long, x) == ShownGroup(d, long, y) ==> x == y
  {
    forall x, y | x in gs && y in gs && ShownGroup(d, long, x) == ShownGroup(d, long, y) ensures x == y {
      ShownGroupInjective(d, long, x, y);
    }
  }

  lemma OneShownInjective(d: Definition, long: bool, gs: set<string>, n: string) returns (g: string)
    requires forall x, y :: x in gs && y in gs && ShownGroup(d, long, x) == ShownGroup(d, long, y) ==> x == y
    requires ShownGroups(d, long, gs) == {n}
    ensures gs == {g} && n == ShownGroup(d, long, g)
  {
    assert n in ShownGroups(d, long, gs);
    g :| g in gs && n == ShownGroup(d, long, g);
    forall h | h in gs ensures h == g {
      assert ShownGroup(d, long, h) in ShownGroups(d, long, gs);
    }
  }

  lemma OneElem(s: seq<string>)
    requires |s| == 1
    ensures Elems(s) == {s[0]}
  {
  }

  lemma OneShown(d: Definition, long: bool, gs: set<string>, shown: seq<string>) returns (g: string)
    requires WellFormed(d) && Shows(d, long, gs, shown) && |shown| == 1
    ensures gs == {g} && shown == [ShownGroup(d, long, g)]
  {
    OneElem(shown);
    TokensInjective(d, long, gs);
    g := OneShownInjective(d, long, gs, shown[0]);
  }

  lemma NotOneShown(d: Definition, long: bool, gs: set<string>, shown: seq<string>, g: string)
    requires Shows(d, long, gs, shown) && gs == {g}
    ensures |shown| == 1
  {
    assert ShownGroups(d, long, gs) == {ShownGroup(d, long, g)};
  }

  /** What a printed group marking means, when it is not the display name of some other item. */
  lemma MeaningOfGroupText(d: Definition, long: bool, gs: set<string>, shown: seq<string>)
    requires WellFormed(d) && Shows(d, long, gs, shown) && shown != []
    requires forall g :: gs == {g} ==> !Collides(d, g)
    ensures var m := Meaning(d, GroupText(d, long, shown));
            || m == Found({}, Known(d, Reread(d, long, gs)), {}, Unknown(d, Reread(d, long, gs)), false)
            || (gs <= d.groupStl.Keys && m == Found({}, gs, {}, {}, false))
    ensures Piece(GroupText(d, long, shown))
  {
    forall n | n in shown ensures '/' !in n && ',' !in n && IsUpper(n) {
      assert n in Elems(shown);
      var g :| g in gs && n == ShownGroup(d, long, g);
      ShownGroupFacts(d, long, g);
    }
    StripCleanOfSort(d, long, gs, shown);
    if |shown| == 1 {
      var g := OneShown(d, long, gs, shown);
      ShownGroupFacts(d, long, g);
      var p := ParamsOf(d, shown[0]);
      if p.solitary.Some? && p.solitary.value != shown[0] {
        MeaningOfSolitary(d, g, p.solitary.value);
      } else {
        MeaningOfList(d, shown);
        assert Sort(shown) == shown;
        PieceOfList(shown);
      }
    } else {
      var listed := if long then shown else FoldAlias(d, d.groupAliasOrder, shown);
      if listed == shown {
        ListedGroups(d, shown);
      } else {
        FoldAliasFacts(d, d.groupAliasOrder, shown);
        var a :| a in d.groupAliasOrder && listed == [a] && |d.groupAliases[a]| > 1 && Sort(d.groupAliases[a]) == shown;
        MeaningOfFold(d, gs, shown, a);
      }
    }
  }

  lemma PieceOfList(names: seq<string>)
    requires forall n :: n in names ==> '/' !in n && IsUpper(n)
    ensures Piece("REL TO " + Join(", ", names))
  {
    JoinChars(", ", names, '/');
    JoinUpper(", ", names);
    UpperConcat("REL TO ", Join(", ", names));
  }

  lemma ListedGroups(d: Definition, shown: seq<string>)
    requires WellFormed(d) && shown != [] && forall n :: n in shown ==> '/' !in n && ',' !in n && IsUpper(n)
    ensures var p := "REL TO " + Join(", ", Sort(shown));
            var ts := set n | n in Sort(shown) :: Strip(Clean(n));
            Piece(p) && Meaning(d, p) == Found({}, Known(d, ts), {}, Unknown(d, ts), false)
  {
    ElemsSort(shown);
    forall n | n in Sort(shown) ensures '/' !in n && ',' !in n && IsUpper(n) {
      assert n in Elems(Sort(shown));
    }
    assert Sort(shown) != [];
    MeaningOfList(d, Sort(shown));
    PieceOfList(Sort(shown));
  }

  /** A multi-group alias stands for exactly the groups it replaced. */
  lemma MeaningOfFold(d: Definition, gs: set<string>, shown: seq<string>, a: string)
    requires WellFormed(d) && Shows(d, false, gs, shown)
    requires a in d.groupAliases && |d.groupAliases[a]| > 1 && Sort(d.groupAliases[a]) == shown
    ensures gs <= d.groupStl.Keys
    ensures var p := "REL TO " + Join(", ", Sort([a]));
            Piece(p) && Meaning(d, p) == Found({}, gs, {}, {}, false)
  {
    ElemsSort(d.groupAliases[a]);
    assert ShownGroups(d, false, gs) == gs;
    assert Elems(d.groupAliases[a]) == gs;
    AliasIsName(d, a);
    MeaningOfAlias(d, a);
  }

  lemma AliasIsName(d: Definition, a: string)
    requires WellFormed(d) && a in d.groupAliases
    ensures Name(a)
    ensures Elems(d.groupAliases[a]) <= d.groupStl.Keys
    ensures |d.groupAliases[a]| > 1 ==> GroupOf(d, a) == Some(Elems(d.groupAliases[a]))
  {
  }

  lemma MeaningOfAlias(d: Definition, a: string)
    requires WellFormed(d) && Name(a) && GroupOf(d, a).Some?
    ensures var p := "REL TO " + Join(", ", Sort([a]));
            Piece(p) && Meaning(d, p) == Found({}, GroupOf(d, a).value, {}, {}, false)
  {
    OneToken(a);
    MeaningOfList(d, [a]);
    PieceOfList([a]);
    KnownOfOne(d, a, GroupOf(d, a).value);
  }

  lemma OneToken(a: string)
    requires Name(a)
    ensures Sort([a]) == [a]
    ensures (set n | n in [a] :: Strip(Clean(n))) == {a}
  {
    CleanFacts(a);
    StripTrimmed(a);
  }

  lemma KnownOfOne(d: Definition, t: string, gs: set<string>)
    requires GroupOf(d, t) == Some(gs)
    ensures Known(d, {t}) == gs && Unknown(d, {t}) == {}
  {
    forall g | g in gs ensures g in Known(d, {t}) { assert t in {t}; }
  }

  lemma RereadMeaning(d: Definition, long: bool, gs: set<string>)
    requires WellFormed(d) && forall g :: g in gs ==> Token(d, g)
    requires forall g :: g in gs && Contains(g, "REL ") ==> g in d.groupStl
    ensures Known(d, Reread(d, long, gs)) == gs * d.groupStl.Keys
    ensures Unknown(d, Reread(d, long, gs)) == gs - d.groupStl.Keys
  {
    RereadClean(d, long, gs);
    TokensResolve(d, long, gs);
    KnownOfShown(d, long, gs);
    UnknownOfShown(d, long, gs);
  }

  lemma AllConfigured(gs: set<string>, all: set<string>)
    requires gs <= all
    ensures gs * all == gs && gs - all == {}
  {
  }

  /** Printable groups are read back as themselves. */
  lemma GroupsReadBack(d: Definition, long: bool, gs: set<string>, shown: seq<string>)
    requires WellFormed(d) && Shows(d, long, gs, shown) && shown != [] && Printable(d, gs)
    ensures Piece(GroupText(d, long, shown))
    ensures Meaning(d, GroupText(d, long, shown)) == Found({}, gs * d.groupStl.Keys, {}, gs - d.groupStl.Keys, false)
  {
    MeaningOfGroupText(d, long, gs, shown);
    var m := Meaning(d, GroupText(d, long, shown));
    if gs <= d.groupStl.Keys && m == Found({}, gs, {}, {}, false) {
      AllConfigured(gs, d.groupStl.Keys);
    } else {
      RereadMeaning(d, long, gs);
    }
  }

  /** Of several tokens, one is the longest. */
  lemma {:induction false} Longest(gs: set<string>) returns (m: string)
    requires gs != {}
    ensures m in gs && forall g :: g in gs ==> |g| <= |m|
    decreases gs
  {
    var g :| g in gs;
    if gs == {g} {
      m := g;
    } else {
      var r := Longest(gs - {g});
      m := if |r| >= |g| then r else g;
      forall h | h in gs ensures |h| <= |m| {
        if h != g { assert h in gs - {g}; }
      }
    }
  }

  /** A colliding group is printed as the display name of another item, and is not found again. */
  lemma CollisionLost(d: Definition, long: bool, gs: set<string>, shown: seq<string>, g: string)
    requires WellFormed(d) && Shows(d, long, gs, shown) && gs == {g} && Collides(d, g)
    ensures shown != [] && Piece(GroupText(d, long, shown))
    ensures var m := Meaning(d, GroupText(d, long, shown)); g !in m.groups && g !in m.unknown
  {
    NotOneShown(d, long, gs, shown, g);
    var h := OneShown(d, long, gs, shown);
    assert h in gs;
    var p := ParamsOf(d, g).solitary.value;
    assert GroupText(d, long, shown) == p;
    RelIsNoName(p, "");
  }

  /** The longest group holding "REL " comes back shorter, and no other group comes back as it. */
  lemma LongestNotReread(d: Definition, long: bool, gs: set<string>, lost: string)
    requires WellFormed(d) && (forall g :: g in gs ==> Token(d, g))
    requires lost in gs && lost !in d.groupStl && Contains(lost, "REL ")
    requires forall g :: g in gs && g !in d.groupStl && Contains(g, "REL ") ==> |g| <= |lost|
    ensures lost !in Reread(d, long, gs)
  {
    ShownGroupFacts(d, long, lost);
    forall g | g in gs ensures Strip(Clean(ShownGroup(d, long, g))) != lost {
      ShownGroupFacts(d, long, g);
      var n := ShownGroup(d, long, g);
      CleanFacts(n);
      StripFacts(Clean(n));
      if n == lost {
        ShownGroupInjective(d, long, g, lost);
      }
    }
  }

  /** Groups that are not printable lose one of their members on the way. */
  lemma GroupsLost(d: Definition, long: bool, gs: set<string>, shown: seq<string>) returns (lost: string)
    requires WellFormed(d) && Shows(d, long, gs, shown) && shown != [] && !Printable(d, gs)
    ensures Piece(GroupText(d, long, shown))
    ensures lost in gs && lost !in d.groupStl
    ensures var m := Meaning(d, GroupText(d, long, shown)); lost !in m.groups && lost !in m.unknown
  {
    if g :| gs == {g} && Collides(d, g) {
      lost := g;
      CollisionLost(d, long, gs, shown, g);
    } else {
      var bad := set g | g in gs && g !in d.groupStl && Contains(g, "REL ");
      assert bad != {} by {
        var g :| g in gs && Contains(g, "REL ") && g !in d.groupStl;
        assert g in bad;
      }
      lost := Longest(bad);
      MeaningOfGroupText(d, long, gs, shown);
      LongestNotReread(d, long, gs, lost);
      NotKnown(d, Reread(d, long, gs), lost);
    }
  }

  lemma NotKnown(d: Definition, ts: set<string>, x: string)
    requires WellFormed(d) && x !in d.groupStl
    ensures x !in Known(d, ts)
  {
    forall t | t in ts && GroupOf(d, t).Some? ensures x !in GroupOf(d, t).value {
      GroupsAreConfigured(d, t);
    }
  }

  lemma GroupsAreConfigured(d: Definition, t: string)
    requires WellFormed(d) && GroupOf(d, t).Some?
    ensures GroupOf(d, t).value <= d.groupStl.Keys
  {
    ResolvesToConfigured(t, d.groupLts, d.groupStl, d.params, d.groupAliases);
  }

  lemma ResolvesToConfigured(t: string, lts: map<string, string>, stl: map<string, string>,
                             params: map<string, Params>, aliases: map<string, seq<string>>)
    requires Bilingual(stl, lts, params) && WellNamedAliases(aliases, stl) && Resolve(t, lts, stl, aliases).Some?
    ensures Resolve(t, lts, stl, aliases).value <= stl.Keys
  {
  }
}
