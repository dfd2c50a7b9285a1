/** Definitions and classifications of which a promise does not hold. */
module Counterexamples {
  import opened Wrappers
  import opened Strings
  import opened Marking
  import opened MarkingRoundTrip
  import opened Normalization
  import opened Access
  import opened Engine
  import opened TextLaws
  import opened Sample
  import Validity

  // ---------------------------------------------------------------- definitions of one level

  /** One level, and items without group aliases or automatic ones. */
  function OneLevel(n: Names, req: map<string, string>, reqLts: map<string, string>, groups: map<string, string>,
                    groupLts: map<string, string>, subs: map<string, string>, subLts: map<string, string>,
                    subAliases: map<string, seq<string>>, params: map<string, Params>, dynamicGroups: bool): Definition
  {
    Definition(
      map[n.low := 1], map[1 := n.low], map[n.low := n.lowLong], map[n.lowLong := n.low], map[],
      req, reqLts, map[], groups, groupLts, map[], [], [], subs, subLts, subAliases, [], params, dynamicGroups)
  }

  ghost predicate LevelOfLetters(n: Names) {
    Letters(n.low) && Letters(n.lowLong) && n.low != n.lowLong
  }

  ghost predicate HasOneLevel(d: Definition, n: Names) {
    && d.levelOf == map[n.low := 1] && d.levelText == map[1 := n.low] && d.levelAliases == map[]
    && d.levelStl == map[n.low := n.lowLong] && d.levelLts == map[n.lowLong := n.low]
    && forall x :: x in d.params ==> d.params[x].requireLvl == 0
  }

  lemma OneLevelWorks(d: Definition, n: Names)
    requires LevelOfLetters(n) && HasOneLevel(d, n)
    ensures WellFormedLevels(d) && Validity.CleanLevels(d)
  {
    assert Decimal(1)[0] == '1';
    assert d.levelStl[n.low] == n.lowLong && d.levelLts[n.lowLong] == n.low;
    LettersAreName(n.low);
    LettersAreName(n.lowLong);
  }

  lemma Assembles(d: Definition, n: Names)
    requires LevelOfLetters(n) && HasOneLevel(d, n) && NoAutoSelect(d)
    requires Bilingual(d.reqStl, d.reqLts, d.params) && Bilingual(d.groupStl, d.groupLts, d.params)
    requires Bilingual(d.subStl, d.subLts, d.params) && WellNamedAliases(d.subAliases, d.subStl)
    requires d.reqAliases == map[] && d.groupAliases == map[] && d.groupAliasOrder == [] && ReqNames(d) !! SubNames(d)
    requires forall x :: x in d.params && d.params[x].requireGroup.Some? ==>
      d.params[x].requireGroup.value in d.groupStl
    requires forall x :: x in d.params && d.params[x].solitary.Some? ==>
      x !in d.groupStl && Name(d.params[x].solitary.value) && d.params[x].solitary.value !in ReqNames(d)
    ensures WellFormed(d)
  {
    OneLevelWorks(d, n);
  }

  lemma TwoPairs(s1: string, l1: string, s2: string, l2: string, params: map<string, Params>)
    requires Name(s1) && Name(l1) && Name(s2) && Name(l2)
    requires s1 !in {l1, s2, l2} && l1 !in {s2, l2} && s2 != l2
    requires {s1, l1, s2, l2} <= params.Keys && params[s1] == params[l1] && params[s2] == params[l2]
    ensures Bilingual(map[s1 := l1, s2 := l2], map[l1 := s1, l2 := s2], params)
  {
    var stl, lts := map[s1 := l1, s2 := l2], map[l1 := s1, l2 := s2];
    assert stl[s1] == l1 && stl[s2] == l2 && lts[l1] == s1 && lts[l2] == s2;
  }

  /** A text of normal parts whose groups are printable. */
  lemma TextOf(d: Definition, p: Parts) returns (c: string)
    requires WellFormed(d) && NoAutoSelect(d) && Normal(d, p) && Printable(d, p.groups)
    ensures Parse(d, c, STANDARD) == Valid(p) && Sound(d, c) && NormalParts(d, c) == p && PrintOf(d, true, p, c)
  {
    ClosedIsFilled(d, p);
    c := SomeText(d, true, p);
    PrintOfParses(d, true, p, c);
  }

  // ---------------------------------------------------------------- dynamic groups next to a subgroup's display name

  /** One subgroup with a display name, and dynamic groups. */
  function Open(n: Names): Definition {
    var shown := Params(0, false, None, None, Some(n.alone));
    OneLevel(n, map[], map[], map[], map[], map[n.sub := n.subLong], map[n.subLong := n.sub], map[n.alone := [n.sub]],
             map[n.sub := shown, n.subLong := shown], true)
  }

  ghost predicate OpenNames(n: Names) {
    && LevelOfLetters(n) && Name(n.sub) && Name(n.subLong) && Name(n.alone)
    && n.sub != n.subLong && n.alone != n.sub && n.alone != n.subLong
  }

  lemma OpenSubs(n: Names)
    requires OpenNames(n)
    ensures var d := Open(n); Bilingual(d.subStl, d.subLts, d.params) && WellNamedAliases(d.subAliases, d.subStl)
    ensures SpellsSubgroup(Open(n), n.sub)
  {
    OnePair(n.sub, n.subLong, Open(n).params);
    assert Elems([n.sub]) == {n.sub};
  }

  lemma OpenIsWellFormed(n: Names)
    requires OpenNames(n)
    ensures var d := Open(n); WellFormed(d) && NoAutoSelect(d) && NoGroupRules(d) && SpellsSubgroup(d, n.sub)
  {
    OpenSubs(n);
    NoReqNames(Open(n));
    Assembles(Open(n), n);
  }

  /** Dynamic groups and nothing else. */
  function Groups(gs: set<string>): Parts { Parts(1, {}, gs, {}) }

  lemma DynamicIsNormal(n: Names, gs: set<string>)
    requires OpenNames(n) && forall g :: g in gs ==> Name(g)
    ensures Normal(Open(n), Groups(gs))
    ensures gs != {n.sub} && gs != {n.subLong} ==> Printable(Open(n), gs)
  {
    NormalFloor(Open(n), Groups(gs));
  }

  lemma MaxOfShared(gs: set<string>, hs: set<string>, s: string)
    requires gs * hs == {s}
    ensures MaxOf(Groups(gs), Groups(hs)) == Valid(Groups({s}))
  {
    assert s in gs * hs;
    var none: set<string> := {};
    assert none + none == none;
  }

  lemma TwoGroups(s: string, x: string)
    requires x != s
    ensures forall g :: {s, x} != {g}
  {
    forall g ensures {s, x} != {g} {
      assert s in {s, x} && x in {s, x};
    }
  }

  lemma TwoAreNormal(n: Names, x: string)
    requires OpenNames(n) && Name(x) && x != n.sub
    ensures Normal(Open(n), Groups({n.sub, x})) && Printable(Open(n), {n.sub, x})
  {
    TwoGroups(n.sub, x);
    DynamicIsNormal(n, {n.sub, x});
  }

  lemma EscapesIn(d: Definition, s: string, gs: set<string>, hs: set<string>) returns (t: string)
    requires WellFormed(d) && NoAutoSelect(d) && NoGroupRules(d) && SpellsSubgroup(d, s) && gs * hs == {s}
    requires Normal(d, Groups(gs)) && Normal(d, Groups(hs))
    ensures IsMax(d, true, Groups(gs), Groups(hs), Valid(t)) && Parse(d, t, STANDARD).Valid?
    ensures !Guards(d, Parse(d, t, STANDARD).value, Groups(gs), Groups(hs))
  {
    MaxOfShared(gs, hs, s);
    MaxClosed(d, Groups(gs), Groups(hs));
    ClosedIsFilled(d, Groups({s}));
    t := SomeText(d, true, Groups({s}));
    DisplayNameEscapes(d, true, Groups(gs), Groups(hs), t, s);
  }

  /** Two classifications of that definition whose maximum is seen by a user who may see neither. */
  lemma MaxEscapes(n: Names, x: string, y: string) returns (c1: string, c2: string, t: string)
    requires OpenNames(n) && Name(x) && Name(y) && x != y && x != n.sub && y != n.sub
    ensures var (d, a, b) := (Open(n), Groups({n.sub, x}), Groups({n.sub, y}));
            && WellFormed(d) && Parse(d, c1, STANDARD) == Valid(a) && Parse(d, c2, STANDARD) == Valid(b)
            && Sound(d, c1) && Sound(d, c2) && IsMax(d, true, a, b, Valid(t))
            && Parse(d, t, STANDARD).Valid? && !Guards(d, Parse(d, t, STANDARD).value, a, b)
  {
    var d, gs, hs := Open(n), {n.sub, x}, {n.sub, y};
    OpenIsWellFormed(n);
    TwoAreNormal(n, x);
    TwoAreNormal(n, y);
    SharedGroups(n.sub, x, y);
    c1 := TextOf(d, Groups(gs));
    c2 := TextOf(d, Groups(hs));
    t := EscapesIn(d, n.sub, gs, hs);
  }

  /** A third one with which the left grouping of the maximum answers and the right one raises. */
  lemma MaxRegroups(n: Names, x: string, y: string) returns (r12: string, left: string)
    requires OpenNames(n) && Name(x) && Name(y) && x != y && x != n.sub && y != n.sub && x != n.subLong
    ensures var (d, a, b, c) := (Open(n), Groups({n.sub, x}), Groups({n.sub, y}), Groups({x}));
            && WellFormed(d) && Printable(d, a.groups) && Printable(d, b.groups) && Printable(d, c.groups)
            && Normal(d, a) && Normal(d, b) && Normal(d, c)
            && IsMax(d, true, a, b, Valid(r12))
            && IsMaxThen(d, true, Inner(d, false, Valid(r12)), Valid(c), Valid(left))
            && MaxOf(b, c).Invalid?
  {
    var d, a, b := Open(n), Groups({n.sub, x}), Groups({n.sub, y});
    OpenIsWellFormed(n);
    TwoAreNormal(n, x);
    TwoAreNormal(n, y);
    DynamicIsNormal(n, {x});
    SharedGroups(n.sub, x, y);
    r12 := EscapesIn(d, n.sub, a.groups, b.groups);
    MaxOfShared(a.groups, b.groups, n.sub);
    InnerNamesSubgroup(d, true, a, b, r12, false, n.sub);
    left := RegroupedLeft(n, x);
  }

  lemma SharedGroups(s: string, x: string, y: string)
    requires x != y && x != s && y != s
    ensures {s, x} * {s, y} == {s}
    ensures MaxOf(Groups({s, y}), Groups({x})).Invalid?
  {
    assert {s, y} * {x} == {};
    assert s in {s, y} && x in {x};
  }

  lemma RegroupedLeft(n: Names, x: string) returns (left: string)
    requires OpenNames(n) && Name(x) && x != n.sub && x != n.subLong
    ensures IsMax(Open(n), true, Parts(1, {}, {}, {n.sub}), Groups({x}), Valid(left))
  {
    var d, m := Open(n), Parts(1, {}, {x}, {n.sub});
    OpenIsWellFormed(n);
    assert Named(d, m);
    MaxOfDisjoint(x, n.sub);
    left := SomeText(d, true, m);
  }

  lemma MaxOfDisjoint(x: string, s: string)
    ensures MaxOf(Parts(1, {}, {}, {s}), Groups({x})) == Valid(Parts(1, {}, {x}, {s}))
  {
    var none: set<string> := {};
    assert none + none == none && none + {x} == {x} && {s} + none == {s};
  }

  // ---------------------------------------------------------------- a subgroup bound to a group

  /** Two groups and a subgroup with a rule about the first. */
  function Bound(n: Names, rule: Params): Definition {
    OneLevel(n, map[], map[], map[n.group := n.groupLong, n.other := n.otherLong],
             map[n.groupLong := n.group, n.otherLong := n.other], map[n.sub := n.subLong],
               map[n.subLong := n.sub], map[],
             map[n.group := PLAIN, n.groupLong := PLAIN, n.other := PLAIN, n.otherLong := PLAIN,
                 n.sub := rule, n.subLong := rule], false)
  }

  function Requires(n: Names): Params { Params(0, false, Some(n.group), None, None) }

  function LimitedTo(n: Names): Params { Params(0, false, None, Some(n.group), None) }

  ghost predicate BoundNames(n: Names, rule: Params) {
    && LevelOfLetters(n) && rule in {Requires(n), LimitedTo(n)}
    && Name(n.group) && Name(n.groupLong) && Name(n.other) && Name(n.otherLong) && Name(n.sub) && Name(n.subLong)
    && n.group !in {n.groupLong, n.other, n.otherLong, n.sub, n.subLong}
    && n.groupLong !in {n.other, n.otherLong, n.sub, n.subLong}
    && n.other !in {n.otherLong, n.sub, n.subLong} && n.otherLong !in {n.sub, n.subLong} && n.sub != n.subLong
  }

  lemma BoundGroups(n: Names, rule: Params)
    requires BoundNames(n, rule)
    ensures Bilingual(Bound(n, rule).groupStl, Bound(n, rule).groupLts, Bound(n, rule).params)
  {
    TwoPairs(n.group, n.groupLong, n.other, n.otherLong, Bound(n, rule).params);
  }

  lemma BoundSubs(n: Names, rule: Params)
    requires BoundNames(n, rule)
    ensures Bilingual(Bound(n, rule).subStl, Bound(n, rule).subLts, Bound(n, rule).params)
    ensures ParamsOf(Bound(n, rule), n.sub) == rule
  {
    OnePair(n.sub, n.subLong, Bound(n, rule).params);
  }

  lemma BoundRules(n: Names, rule: Params)
    requires BoundNames(n, rule)
    ensures NoLevelRules(Bound(n, rule)) && (rule == Requires(n) ==> NoLimits(Bound(n, rule)))
    ensures forall x :: x in Bound(n, rule).params ==> Bound(n, rule).params[x].solitary.None?
    ensures forall x :: x in Bound(n, rule).params && Bound(n, rule).params[x].requireGroup.Some? ==>
      Bound(n, rule).params[x].requireGroup.value in Bound(n, rule).groupStl
  {
  }

  lemma RequiredOfOne(d: Definition, s: string, rule: Params)
    requires ParamsOf(d, s) == rule
    ensures RequiredGroups(d, {s}) == if rule.requireGroup.Some? then {rule.requireGroup.value} else {}
  {
    assert s in {s};
  }

  lemma NoReqNames(d: Definition)
    requires d.reqStl == d.reqLts == map[] && d.reqAliases == map[]
    ensures ReqNames(d) == {}
  {
  }

  lemma BoundIsWellFormed(n: Names, rule: Params)
    requires BoundNames(n, rule)
    ensures var d := Bound(n, rule); WellFormed(d) && NoAutoSelect(d)
  {
    var d := Bound(n, rule);
    BoundGroups(n, rule);
    BoundSubs(n, rule);
    BoundRules(n, rule);
    NoReqNames(d);
    Assembles(d, n);
  }

  ghost predicate NoLevelRules(d: Definition) {
    forall x :: x in d.params ==> d.params[x].requireLvl == 0
  }

  lemma ConfiguredIsNormal(d: Definition, p: Parts)
    requires NoLevelRules(d) && p.lvl in d.levelText && p.req <= d.reqStl.Keys
    requires p.groups <= d.groupStl.Keys && p.subgroups <= d.subStl.Keys && RequiredGroups(d, p.subgroups) <= p.groups
    requires WithinLimits(d, p.subgroups, p.groups)
    ensures Normal(d, p)
  {
    NormalFloor(d, p);
  }

  lemma BoundKeys(n: Names, rule: Params)
    requires BoundNames(n, rule)
    ensures var d := Bound(n, rule);
            d.groupStl.Keys == {n.group, n.other} && d.subStl.Keys == {n.sub} && 1 in d.levelText
  {
  }

  lemma RequiringParts(n: Names)
    requires BoundNames(n, Requires(n))
    ensures var d := Bound(n, Requires(n));
            Normal(d, Parts(1, {}, {n.group, n.other}, {n.sub})) && Normal(d, Parts(1, {}, {n.other}, {}))
  {
    var d := Bound(n, Requires(n));
    BoundKeys(n, Requires(n));
    BoundRules(n, Requires(n));
    BoundSubs(n, Requires(n));
    RequiredOfOne(d, n.sub, Requires(n));
    ConfiguredIsNormal(d, Parts(1, {}, {n.group, n.other}, {n.sub}));
    ConfiguredIsNormal(d, Parts(1, {}, {n.other}, {}));
  }

  lemma LimitedParts(n: Names)
    requires BoundNames(n, LimitedTo(n))
    ensures var d := Bound(n, LimitedTo(n));
            Normal(d, Parts(1, {}, {}, {n.sub})) && Normal(d, Parts(1, {}, {n.other}, {}))
    ensures !Fits(Bound(n, LimitedTo(n)), Parts(1, {}, {n.other}, {n.sub}))
  {
    var d := Bound(n, LimitedTo(n));
    BoundKeys(n, LimitedTo(n));
    BoundRules(n, LimitedTo(n));
    BoundSubs(n, LimitedTo(n));
    RequiredOfOne(d, n.sub, LimitedTo(n));
    ConfiguredIsNormal(d, Parts(1, {}, {}, {n.sub}));
    ConfiguredIsNormal(d, Parts(1, {}, {n.other}, {}));
    assert n.sub in {n.sub} && n.other in Filled(d, Parts(1, {}, {n.other}, {n.sub})).groups;
  }

  lemma BoundMax(groups: set<string>, other: string, sub: string)
    requires groups == {} || other in groups
    ensures MaxOf(Parts(1, {}, groups, {sub}), Parts(1, {}, {other}, {})) == Valid(Parts(1, {}, {other}, {sub}))
  {
    assert other in groups ==> groups * {other} == {other};
    var none: set<string> := {};
    assert none + none == none && {sub} + none == {sub} && none + {other} == {other};
  }

  /** Two classifications of a definition with a limited subgroup whose maximum is a text that does not parse. */
  lemma LimitedGroupUnread(n: Names) returns (c1: string, c2: string, t: string)
    requires BoundNames(n, LimitedTo(n))
    ensures var (d, a, b) := (Bound(n, LimitedTo(n)), Parts(1, {}, {}, {n.sub}), Parts(1, {}, {n.other}, {}));
            && WellFormed(d) && Parse(d, c1, STANDARD) == Valid(a) && Parse(d, c2, STANDARD) == Valid(b)
            && Sound(d, c1) && Sound(d, c2) && IsMax(d, true, a, b, Valid(t)) && Parse(d, t, STANDARD).Invalid?
  {
    var d, a, b := Bound(n, LimitedTo(n)), Parts(1, {}, {}, {n.sub}), Parts(1, {}, {n.other}, {});
    BoundIsWellFormed(n, LimitedTo(n));
    LimitedParts(n);
    ConfiguredArePrintable(d, a);
    ConfiguredArePrintable(d, b);
    c1 := TextOf(d, a);
    c2 := TextOf(d, b);
    BoundMax({}, n.other, n.sub);
    t := UnfitText(d, a, b);
  }

  lemma UnfitText(d: Definition, a: Parts, b: Parts) returns (t: string)
    requires WellFormed(d) && NoAutoSelect(d) && Normal(d, a) && Normal(d, b)
    requires MaxOf(a, b).Valid? && !Fits(d, MaxOf(a, b).value) && Printable(d, MaxOf(a, b).value.groups)
    ensures IsMax(d, true, a, b, Valid(t)) && Parse(d, t, STANDARD).Invalid?
  {
    CombinedAreNamed(d, a, b);
    t := SomeText(d, true, MaxOf(a, b).value);
    UnfitIsUnread(d, true, MaxOf(a, b).value, t);
  }

  /** Two classifications of that definition whose maximum is seen by a user who may see only one of them. */
  lemma RequiredGroupEscapes(n: Names) returns (c1: string, c2: string, t: string)
    requires BoundNames(n, Requires(n))
    ensures var (d, a, b) :=
            (Bound(n, Requires(n)), Parts(1, {}, {n.group, n.other}, {n.sub}), Parts(1, {}, {n.other}, {}));
            && WellFormed(d) && NoLimits(d) && Parse(d, c1, STANDARD) == Valid(a) && Parse(d, c2, STANDARD) == Valid(b)
            && Sound(d, c1) && Sound(d, c2) && IsMax(d, true, a, b, Valid(t))
            && Parse(d, t, STANDARD).Valid? && !Guards(d, Parse(d, t, STANDARD).value, a, b)
  {
    var d, a, b := Bound(n, Requires(n)), Parts(1, {}, {n.group, n.other}, {n.sub}), Parts(1, {}, {n.other}, {});
    BoundIsWellFormed(n, Requires(n));
    BoundRules(n, Requires(n));
    RequiringParts(n);
    ConfiguredArePrintable(d, a);
    ConfiguredArePrintable(d, b);
    c1 := TextOf(d, a);
    c2 := TextOf(d, b);
    BoundMax(a.groups, n.other, n.sub);
    BoundSubs(n, Requires(n));
    RequiredOfOne(d, n.sub, Requires(n));
    t := RequiredText(d, a, b);
  }

  lemma RequiredText(d: Definition, a: Parts, b: Parts) returns (t: string)
    requires WellFormed(d) && NoAutoSelect(d) && NoLimits(d) && !d.dynamicGroups && Normal(d, a) && Normal(d, b)
    requires MaxOf(a, b).Valid? && !(RequiredGroups(d, MaxOf(a, b).value.subgroups) <= MaxOf(a, b).value.groups)
    ensures IsMax(d, true, a, b, Valid(t)) && Parse(d, t, STANDARD).Valid?
    ensures !Guards(d, Parse(d, t, STANDARD).value, a, b)
  {
    CombinedAreNamed(d, a, b);
    NoLimitsFit(d, MaxOf(a, b).value);
    t := SomeText(d, true, MaxOf(a, b).value);
    MaxTexts(d, true, a, b, t);
    ConfiguredArePrintable(d, Filled(d, MaxOf(a, b).value));
  }

  // ---------------------------------------------------------------- a marking that is torn apart

  /** Two required items, of which `other` is shown among the groups, a subgroup, and dynamic groups. */
  function Tearing(n: Names): Definition {
    var among := Params(0, true, None, None, None);
    OneLevel(n, map[n.req := n.reqLong, n.other := n.otherLong], map[n.reqLong := n.req, n.otherLong := n.other],
             map[], map[], map[n.sub := n.subLong], map[n.subLong := n.sub], map[],
             map[n.req := PLAIN, n.reqLong := PLAIN, n.other := among, n.otherLong := among,
               n.sub := PLAIN, n.subLong := PLAIN],
             true)
  }

  ghost predicate TearingNames(n: Names) {
    && LevelOfLetters(n)
    && Name(n.req) && Name(n.reqLong) && Name(n.other) && Name(n.otherLong) && Name(n.sub) && Name(n.subLong)
    && n.req !in {n.reqLong, n.other, n.otherLong, n.sub, n.subLong}
    && n.reqLong !in {n.other, n.otherLong, n.sub, n.subLong}
    && n.other !in {n.otherLong, n.sub, n.subLong} && n.otherLong !in {n.sub, n.subLong} && n.sub != n.subLong
  }

  lemma TearingReqs(n: Names)
    requires TearingNames(n)
    ensures Bilingual(Tearing(n).reqStl, Tearing(n).reqLts, Tearing(n).params)
    ensures !ParamsOf(Tearing(n), n.req).requiredGroup && ParamsOf(Tearing(n), n.other).requiredGroup
  {
    TwoPairs(n.req, n.reqLong, n.other, n.otherLong, Tearing(n).params);
  }

  lemma TearingSubs(n: Names)
    requires TearingNames(n)
    ensures Bilingual(Tearing(n).subStl, Tearing(n).subLts, Tearing(n).params)
  {
    OnePair(n.sub, n.subLong, Tearing(n).params);
  }

  lemma TearingRules(n: Names)
    requires TearingNames(n)
    ensures NoGroupRules(Tearing(n)) && NoLevelRules(Tearing(n))
    ensures forall x :: x in Tearing(n).params ==> Tearing(n).params[x].solitary.None?
  {
  }

  lemma Disjoint(n: Names, req: set<string>, sub: set<string>)
    requires TearingNames(n) && req == {n.req, n.reqLong, n.other, n.otherLong} && sub == {n.sub, n.subLong}
    ensures req !! sub
  {
  }

  lemma TearingApart(n: Names)
    requires TearingNames(n)
    ensures ReqNames(Tearing(n)) !! SubNames(Tearing(n))
  {
    assert ReqNames(Tearing(n)) == {n.req, n.reqLong, n.other, n.otherLong};
    assert SubNames(Tearing(n)) == {n.sub, n.subLong};
    Disjoint(n, {n.req, n.reqLong, n.other, n.otherLong}, {n.sub, n.subLong});
  }

  lemma TearingIsWellFormed(n: Names)
    requires TearingNames(n)
    ensures var d := Tearing(n); WellFormed(d) && NoAutoSelect(d) && NoGroupRules(d) && Validity.CleanLevels(d)
  {
    TearingReqs(n);
    TearingSubs(n);
    TearingRules(n);
    TearingApart(n);
    OneLevelWorks(Tearing(n), n);
    Assembles(Tearing(n), n);
  }

  /** Parts with the empty dynamic group. */
  lemma EmptyGroupIsNormal(d: Definition, p: Parts)
    requires d.dynamicGroups && NoGroupRules(d) && NoLevelRules(d) && p.lvl in d.levelText && p.req <= d.reqStl.Keys
    requires p.groups == {""} && GroupOf(d, "").None? && p.subgroups <= d.subStl.Keys && "" !in d.params
    ensures Normal(d, p) && Printable(d, p.groups)
  {
    NoRulesClose(d, p);
    NormalFloor(d, p);
    assert forall g :: {""} == {g} ==> g in {""};
  }

  lemma TornParts(n: Names)
    requires TearingNames(n)
    ensures var (d, p) := (Tearing(n), Parts(1, {n.req, n.other}, {""}, {n.sub}));
            Normal(d, p) && Printable(d, p.groups) && Validity.TornApart(d, p)
  {
    var d, p := Tearing(n), Parts(1, {n.req, n.other}, {""}, {n.sub});
    TearingReqs(n);
    TearingRules(n);
    NameNotEmpty(n);
    assert d.reqStl.Keys == p.req && d.subStl.Keys == p.subgroups && 1 in d.levelText;
    EmptyGroupIsNormal(d, p);
  }

  lemma NameNotEmpty(n: Names)
    requires TearingNames(n)
    ensures "" !in Tearing(n).params && "" !in Tearing(n).groupStl && !Collides(Tearing(n), "")
  {
  }

  /** A marking of that definition whose every normalized form `is_valid` rejects, cached or not. */
  lemma TornMarking(n: Names) returns (text: string)
    requires TearingNames(n)
    ensures var d := Tearing(n);
            && WellFormed(d) && Sound(d, text)
            && forall c, hit :: Computed(d, true, text, STANDARD, Valid(c)) ==> !Validity.ValidMarking(d, hit, c)
  {
    var d := Tearing(n);
    TearingIsWellFormed(n);
    TornParts(n);
    text := TextOf(d, Parts(1, {n.req, n.other}, {""}, {n.sub}));
    forall c, hit | Computed(d, true, text, STANDARD, Valid(c)) ensures !Validity.ValidMarking(d, hit, c) {
      Validity.NormalizedIsValid(d, true, text, c, hit);
    }
  }
}
