/** What the operations on classification texts promise whoever reads the texts they return. */
module TextLaws {
  import opened Wrappers
  import opened Marking
  import MarkingText
  import opened MarkingRoundTrip
  import opened Normalization
  import opened Access
  import opened Engine
  import opened Rereading

  // ---------------------------------------------------------------- access between texts and parts

  /** `is_accessible` answers true. */
  ghost predicate Sees(d: Definition, user: string, text: string) {
    var (u, p) := (Parse(d, user, STANDARD), Parse(d, text, STANDARD));
    u.Valid? && p.Valid? && Accessible(u.value, p.value)
  }

  ghost predicate SeesParts(d: Definition, user: string, p: Parts) {
    var u := Parse(d, user, STANDARD);
    u.Valid? && Accessible(u.value, p)
  }

  ghost predicate PartsSee(d: Definition, u: Parts, text: string) {
    var p := Parse(d, text, STANDARD);
    p.Valid? && Accessible(u, p.value)
  }

  ghost predicate OnlySeenByBoth(d: Definition, t: string, a: Parts, b: Parts) {
    forall user: string :: Sees(d, user, t) ==> SeesParts(d, user, a) && SeesParts(d, user, b)
  }

  ghost predicate SeenByEither(d: Definition, t: string, a: Parts, b: Parts) {
    forall user: string :: SeesParts(d, user, a) || SeesParts(d, user, b) ==> Sees(d, user, t)
  }

  ghost predicate SeesOnlyShared(d: Definition, t: string, a: Parts, b: Parts) {
    forall text: string :: Sees(d, t, text) ==> PartsSee(d, a, text) && PartsSee(d, b, text)
  }

  ghost predicate SeesAll(d: Definition, t: string, a: Parts, b: Parts) {
    forall text: string :: PartsSee(d, a, text) || PartsSee(d, b, text) ==> Sees(d, t, text)
  }

  // ---------------------------------------------------------------- the printed parts and the parts read back

  /** The text of parts `p`: it parses to them, with the required groups, exactly when those are printable. */
  ghost predicate ReadsBack(d: Definition, p: Parts, t: string) {
    && Parse(d, t, STANDARD) == ReadAgain(d, p)
    && (ReadAgain(d, p) == Valid(Filled(d, p)) <==> Printable(d, Filled(d, p).groups))
  }

  lemma PrintReadsBack(d: Definition, long: bool, p: Parts, t: string)
    requires WellFormed(d) && NoAutoSelect(d) && Fillable(d, p) && Raise(d, p) == p && PrintOf(d, long, p, t)
    ensures ReadsBack(d, p, t)
    ensures ReadAgain(d, p).Valid? ==> ReadAs(d, p, ReadAgain(d, p).value)
  {
    assert Raise(d, Filled(d, p)) == Filled(d, p);
    TextReadAgain(d, long, p, t);
    ReadAgainFacts(d, p);
  }

  lemma NothingAdded(d: Definition, p: Parts)
    requires RequiredGroups(d, p.subgroups) <= p.groups
    ensures Filled(d, p) == p
  {
    assert p.groups + RequiredGroups(d, p.subgroups) == p.groups;
  }

  // ---------------------------------------------------------------- max

  /** Parts whose groups go beyond the limit of a subgroup are printed all the same, and then the text does not
      parse. */
  ghost predicate Unread(d: Definition, t: string, m: Parts) {
    Printable(d, m.groups) ==> Parse(d, t, STANDARD).Invalid?
  }

  lemma UnfitIsUnread(d: Definition, long: bool, m: Parts, t: string)
    requires WellFormed(d) && NoAutoSelect(d) && Named(d, m) && !Fits(d, m) && PrintOf(d, long, m, t)
    ensures Unread(d, t, m)
  {
    if Printable(d, m.groups) {
      var gs, shown := PrintOfShown(d, long, m, t, STANDARD);
      WellFormedIsConsistent(d);
      RequiredCloses(d, m.subgroups);
      StillPrintable(d, m.groups, RequiredGroups(d, m.subgroups), gs);
      MeansItself(d, long, gs, shown);
      UnfitIsInvalid(d, m, gs, Raise(d, m).lvl, m.req + {});
    }
  }

  lemma UnfitIsInvalid(d: Definition, m: Parts, gs: set<string>, lvl: nat, req: set<string>)
    requires !Fits(d, m) && m.groups <= gs <= Filled(d, m).groups
    ensures Close(d, lvl, Found(req, gs * d.groupStl.Keys, {} + m.subgroups, gs - d.groupStl.Keys, false),
            STANDARD).Invalid?
  {
    assert gs * d.groupStl.Keys + (gs - d.groupStl.Keys) == gs;
    assert gs + RequiredGroups(d, m.subgroups) == Filled(d, m).groups;
    assert {} + m.subgroups == m.subgroups;
  }

  lemma StillPrintable(d: Definition, groups: set<string>, more: set<string>, gs: set<string>)
    requires Printable(d, groups) && more <= d.groupStl.Keys && groups <= gs <= groups + more
    ensures Printable(d, gs)
  {
    forall g | gs == {g} ensures !Collides(d, g) {
      assert g in gs;
      if g in groups { assert groups == {g}; }
    }
  }

  lemma MeansItself(d: Definition, long: bool, gs: set<string>, shown: seq<string>)
    requires WellFormed(d) && Shows(d, long, gs, shown) && Printable(d, gs)
    ensures GroupMeaning(d, long, shown) == Found({}, gs * d.groupStl.Keys, {}, gs - d.groupStl.Keys, false)
  {
    if shown == [] {
      NoGroupsShown(d, long, gs, shown);
      assert gs * d.groupStl.Keys == {} && gs - d.groupStl.Keys == {};
    } else {
      GroupsReadBack(d, long, gs, shown);
    }
  }

  /** What the text `t` of the maximum of two classifications is good for, told from the maximum `m`. When its groups
      are printable, the text bounds access exactly when the maximum already held the groups its subgroups require.
      Whatever it is read back as, without group rules, it does so exactly when that names no more than the maximum. */
  ghost predicate MaxLaw(d: Definition, t: string, a: Parts, b: Parts, m: Parts) {
    if Fits(d, m) then MaxFits(d, t, a, b, m) else Unread(d, t, m)
  }

  ghost predicate MaxFits(d: Definition, t: string, a: Parts, b: Parts, m: Parts) {
    && ReadsBack(d, m, t)
    && (Printable(d, Filled(d, m).groups) ==> MaxPrinted(d, t, a, b, m))
    && (NoGroupRules(d) && ReadAgain(d, m).Valid? ==> MaxReread(d, t, a, b, m, ReadAgain(d, m).value))
  }

  ghost predicate MaxPrinted(d: Definition, t: string, a: Parts, b: Parts, m: Parts) {
    && (Guards(d, Filled(d, m), a, b) <==> RequiredGroups(d, m.subgroups) <= m.groups)
    && (RequiredGroups(d, m.subgroups) <= m.groups ==> OnlySeenByBoth(d, t, a, b))
  }

  ghost predicate MaxReread(d: Definition, t: string, a: Parts, b: Parts, m: Parts, q: Parts) {
    && (Guards(d, q, a, b) <==> NoWider(q.groups, m.groups) && NoWider(q.subgroups, m.subgroups))
    && (NoWider(q.groups, m.groups) && NoWider(q.subgroups, m.subgroups) ==> OnlySeenByBoth(d, t, a, b))
  }

  lemma MaxTexts(d: Definition, long: bool, a: Parts, b: Parts, t: string)
    requires WellFormed(d) && NoAutoSelect(d) && Normal(d, a) && Normal(d, b)
    requires MaxOf(a, b).Valid? && PrintOf(d, long, MaxOf(a, b).value, t)
    ensures MaxLaw(d, t, a, b, MaxOf(a, b).value)
  {
    CombinedAreNamed(d, a, b);
    if Fits(d, MaxOf(a, b).value) {
      MaxFitTexts(d, long, a, b, t);
    } else {
      UnfitIsUnread(d, long, MaxOf(a, b).value, t);
    }
  }

  lemma MaxFitTexts(d: Definition, long: bool, a: Parts, b: Parts, t: string)
    requires WellFormed(d) && NoAutoSelect(d) && Normal(d, a) && Normal(d, b)
    requires MaxOf(a, b).Valid? && Fits(d, MaxOf(a, b).value) && PrintOf(d, long, MaxOf(a, b).value, t)
    ensures MaxFits(d, t, a, b, MaxOf(a, b).value)
  {
    var m := MaxOf(a, b).value;
    WellFormedIsConsistent(d);
    CombinedAreNamed(d, a, b);
    FitsIsFillable(d, m);
    MaxRaised(d, a, b);
    PrintReadsBack(d, long, m, t);
    if Printable(d, Filled(d, m).groups) {
      MaxPrintedHolds(d, t, a, b);
    }
    if NoGroupRules(d) && ReadAgain(d, m).Valid? {
      MaxRereadHolds(d, t, a, b, ReadAgain(d, m).value);
    }
  }

  lemma MaxPrintedHolds(d: Definition, t: string, a: Parts, b: Parts)
    requires Normal(d, a) && Normal(d, b) && MaxOf(a, b).Valid? && Fits(d, MaxOf(a, b).value)
    requires Parse(d, t, STANDARD) == Valid(Filled(d, MaxOf(a, b).value))
    ensures MaxPrinted(d, t, a, b, MaxOf(a, b).value)
  {
    var m := MaxOf(a, b).value;
    MaxGuardsWithRequiredGroups(d, a, b);
    if RequiredGroups(d, m.subgroups) <= m.groups {
      NothingAdded(d, m);
      MaxSeen(d, t, a, b, m);
    }
  }

  lemma MaxRereadHolds(d: Definition, t: string, a: Parts, b: Parts, q: Parts)
    requires NoGroupRules(d) && Normal(d, a) && Normal(d, b) && MaxOf(a, b).Valid?
    requires Parse(d, t, STANDARD) == Valid(q) && ReadAs(d, MaxOf(a, b).value, q)
    ensures MaxReread(d, t, a, b, MaxOf(a, b).value, q)
  {
    var m := MaxOf(a, b).value;
    MaxGuards(d, a, b, q);
    if NoWider(q.groups, m.groups) && NoWider(q.subgroups, m.subgroups) {
      MaxSeen(d, t, a, b, q);
    }
  }

  lemma MaxSeen(d: Definition, t: string, a: Parts, b: Parts, q: Parts)
    requires MaxOf(a, b).Valid? && Parse(d, t, STANDARD) == Valid(q)
    requires var m := MaxOf(a, b).value;
             q.lvl == m.lvl && q.req == m.req && NoWider(q.groups, m.groups) && NoWider(q.subgroups, m.subgroups)
    ensures OnlySeenByBoth(d, t, a, b)
  {
    var m := MaxOf(a, b).value;
    forall user | Sees(d, user, t) ensures SeesParts(d, user, a) && SeesParts(d, user, b) {
      var u := Parse(d, user, STANDARD).value;
      NoWiderSees(u.groups, q.groups, m.groups);
      NoWiderSees(u.subgroups, q.subgroups, m.subgroups);
      MaxBounds(u, a, b);
    }
  }

  // ---------------------------------------------------------------- the order and the grouping of a maximum

  /** What `max_classification` answers for classifications of the parts `a` and `b`. */
  ghost predicate IsMax(d: Definition, long: bool, a: Parts, b: Parts, r: Result<string>) {
    && (r.Invalid? <==> MaxOf(a, b).Invalid?)
    && (r.Valid? ==> PrintOf(d, long, MaxOf(a, b).value, r.value))
  }

  /** The same for classifications that may have no parts, and what the text is good for. */
  ghost predicate MaxAnswer(d: Definition, long: bool, x: Result<Parts>, y: Result<Parts>, r: Result<string>) {
    match (x, y)
    case (Valid(a), Valid(b)) =>
      IsMax(d, long, a, b, r) && (r.Valid? ==> MaxLaw(d, r.value, a, b, MaxOf(a, b).value))
    case _ => r.Invalid?
  }

  lemma MaxTextMeans(d: Definition, long: bool, a: Parts, b: Parts, r: Result<string>)
    requires WellFormed(d) && NoAutoSelect(d) && Normal(d, a) && Normal(d, b) && IsMax(d, long, a, b, r)
    ensures r.Valid? && Fits(d, MaxOf(a, b).value) ==> Parse(d, r.value, STANDARD) == ReadAgain(d, MaxOf(a, b).value)
    ensures r.Valid? && !Fits(d, MaxOf(a, b).value) ==> Unread(d, r.value, MaxOf(a, b).value)
  {
    if r.Valid? {
      WellFormedIsConsistent(d);
      CombinedAreNamed(d, a, b);
      FitsIsFillable(d, MaxOf(a, b).value);
      if Fits(d, MaxOf(a, b).value) {
        TextReadAgain(d, long, MaxOf(a, b).value, r.value);
      } else {
        UnfitIsUnread(d, long, MaxOf(a, b).value, r.value);
      }
    }
  }

  /** The order of two classifications never matters, but perhaps when their maximum breaks both a limit and the
      rules of printing. One given twice comes back exactly when its groups are printable. */
  lemma MaxTextsCommute(d: Definition, long: bool, a: Parts, b: Parts, r: Result<string>, s: Result<string>)
    requires WellFormed(d) && NoAutoSelect(d) && Normal(d, a) && Normal(d, b)
    requires IsMax(d, long, a, b, r) && IsMax(d, long, b, a, s)
    requires MaxOf(a, b).Valid? ==> Fits(d, MaxOf(a, b).value) || Printable(d, MaxOf(a, b).value.groups)
    ensures SameMeaning(d, r, s)
    ensures a == b ==> r.Valid? && (Parse(d, r.value, STANDARD) == Valid(a) <==> Printable(d, a.groups))
  {
    MaxCommutative(a, b);
    MaxIdempotent(a);
    MaxTextMeans(d, long, a, b, r);
    MaxTextMeans(d, long, b, a, s);
    if a == b {
      ClosedIsFilled(d, a);
      ReadAgainFacts(d, a);
    }
  }

  /** The maximum of two classifications, when there is one, has printable groups. */
  ghost predicate Stays(d: Definition, m: Result<Parts>) {
    m.Valid? ==> Printable(d, m.value.groups)
  }

  /** Of classifications with printable groups it has, unless all that is left is one group that spells another item. */
  lemma StaysUnlessAlone(d: Definition, a: Parts, b: Parts)
    requires Printable(d, a.groups) && Printable(d, b.groups) && MaxOf(a, b).Valid?
    ensures Stays(d, MaxOf(a, b)) <==> !exists g :: MaxOf(a, b).value.groups == {g} && Collides(d, g)
  {
    assert MaxOf(a, b).value.groups <= a.groups + b.groups;
  }

  /** What an answer stands for when it is given to the next operation; an exception goes on. */
  ghost function Inner(d: Definition, hit: bool, r: Result<string>): Result<Parts> {
    if r.Valid? then Operand(d, hit, r.value) else Invalid
  }

  ghost predicate IsMaxThen(d: Definition, long: bool, x: Result<Parts>, y: Result<Parts>, r: Result<string>) {
    if x.Valid? && y.Valid? then IsMax(d, long, x.value, y.value, r) else r.Invalid?
  }

  /** Answers in the cache were printed. */
  ghost predicate MayHit(d: Definition, hit: bool, r: Result<string>) {
    hit && r.Valid? ==> Printed(d, true, r.value)
  }

  lemma InnerStays(d: Definition, long: bool, a: Parts, b: Parts, r: Result<string>, hit: bool)
    requires WellFormed(d) && NoAutoSelect(d) && NoGroupRules(d) && Normal(d, a) && Normal(d, b)
    requires IsMax(d, long, a, b, r) && Stays(d, MaxOf(a, b)) && MayHit(d, hit, r)
    ensures Inner(d, hit, r) == MaxOf(a, b)
    ensures MaxOf(a, b).Valid? ==> Normal(d, MaxOf(a, b).value)
  {
    if r.Valid? {
      var m := MaxOf(a, b).value;
      MaxClosed(d, a, b);
      MaxRaised(d, a, b);
      ClosedIsFilled(d, m);
      PrintReadsBack(d, long, m, r.value);
      OperandFacts(d, hit, r.value);
    }
  }

  /** The maximum of three classifications fails on the same triples in either grouping and otherwise means the same,
      when the maxima taken first have printable groups. */
  lemma MaxTextsAssociate(d: Definition, long: bool, a: Parts, b: Parts, c: Parts, r12: Result<string>, hit12: bool,
                          left: Result<string>, r23: Result<string>, hit23: bool, right: Result<string>)
    requires WellFormed(d) && NoAutoSelect(d) && NoGroupRules(d) && Normal(d, a) && Normal(d, b) && Normal(d, c)
    requires IsMax(d, long, a, b, r12) && MayHit(d, hit12, r12)
    requires IsMax(d, long, b, c, r23) && MayHit(d, hit23, r23)
    requires IsMaxThen(d, long, Inner(d, hit12, r12), Valid(c), left)
    requires IsMaxThen(d, long, Valid(a), Inner(d, hit23, r23), right)
    requires Stays(d, MaxOf(a, b)) && Stays(d, MaxOf(b, c))
    ensures SameMeaning(d, left, right)
  {
    InnerStays(d, long, a, b, r12, hit12);
    InnerStays(d, long, b, c, r23, hit23);
    MaxAssociative(a, b, c);
    if left.Valid? {
      NoRulesFit(d, MaxOf(MaxOf(a, b).value, c).value);
      MaxTextMeans(d, long, MaxOf(a, b).value, c, left);
    }
    if right.Valid? {
      NoRulesFit(d, MaxOf(a, MaxOf(b, c).value).value);
      MaxTextMeans(d, long, a, MaxOf(b, c).value, right);
    }
  }

  lemma NoRulesFit(d: Definition, p: Parts)
    requires NoGroupRules(d)
    ensures Fits(d, p)
  {
  }

  // ---------------------------------------------------------------- a maximum that does not bound access

  /** A group that is not configured but spells a subgroup with a display name of its own. */
  ghost predicate SpellsSubgroup(d: Definition, s: string) {
    Collides(d, s) && SubOf(d, ParamsOf(d, s).solitary.value) == Some({s})
  }

  lemma DisplayNameMeansSubgroup(d: Definition, long: bool, s: string, shown: seq<string>)
    requires WellFormed(d) && SpellsSubgroup(d, s) && Shows(d, long, {s}, shown)
    ensures GroupMeaning(d, long, shown) == Found({}, {}, {s}, {}, false)
  {
    NotOneShown(d, long, {s}, shown, s);
    var h := OneShown(d, long, {s}, shown);
    assert h in {s};
    MarkingText.RelIsNoName(ParamsOf(d, s).solitary.value, "");
  }

  lemma DisplayNameRead(d: Definition, long: bool, m: Parts, t: string, s: string)
    requires WellFormed(d) && NoAutoSelect(d) && NoGroupRules(d) && SpellsSubgroup(d, s)
    requires Normal(d, m) && m.groups == {s} && m.subgroups == {} && PrintOf(d, long, m, t)
    ensures Parse(d, t, STANDARD) == Valid(Parts(m.lvl, m.req, {}, {s}))
  {
    ClosedIsFilled(d, m);
    var shown := PrintOfMeaning(d, long, m, t, STANDARD);
    DisplayNameMeansSubgroup(d, long, s, shown);
    CloseOfSubgroup(d, m.lvl, m.req, s, m.subgroups);
  }

  lemma CloseOfSubgroup(d: Definition, lvl: nat, req: set<string>, s: string, none: set<string>)
    requires NoGroupRules(d) && none == {}
    ensures Close(d, lvl, Found(req + {}, {}, {s} + none, {}, false), STANDARD) == Valid(Parts(lvl, req, {}, {s}))
  {
    NoRulesClose(d, Parts(lvl, req, {}, {s}));
    assert {s} + none == {s} && req + {} == req;
  }

  /** When the two classifications share only such a group, the text of their maximum names the subgroup instead: a user
      who has the subgroup and no group sees it, and sees neither classification. */
  lemma DisplayNameEscapes(d: Definition, long: bool, a: Parts, b: Parts, t: string, s: string)
    requires WellFormed(d) && NoAutoSelect(d) && NoGroupRules(d) && Normal(d, a) && Normal(d, b) && SpellsSubgroup(d, s)
    requires MaxOf(a, b).Valid? && MaxOf(a, b).value.groups == {s} && MaxOf(a, b).value.subgroups == {}
    requires PrintOf(d, long, MaxOf(a, b).value, t)
    ensures Parse(d, t, STANDARD) == Valid(MaxOf(a, b).value.(groups := {}, subgroups := {s}))
    ensures !Guards(d, Parse(d, t, STANDARD).value, a, b)
  {
    MaxClosed(d, a, b);
    MaxRaised(d, a, b);
    DisplayNameRead(d, long, MaxOf(a, b).value, t, s);
    ParseCloses(d, t, STANDARD);
    MaxGuards(d, a, b, Parse(d, t, STANDARD).value);
  }

  /** Then the grouping matters too: with a third classification of other groups the left grouping answers and the right
      one raises. */
  lemma DisplayNameRegroups(d: Definition, long: bool, a: Parts, b: Parts, c: Parts, s: string, r12: Result<string>,
                            hit12: bool, left: Result<string>, r23: Result<string>, hit23: bool, right: Result<string>)
    requires WellFormed(d) && NoAutoSelect(d) && NoGroupRules(d) && Normal(d, a) && Normal(d, b) && Normal(d, c)
    requires IsMax(d, long, a, b, r12) && MayHit(d, hit12, r12)
    requires IsMax(d, long, b, c, r23) && MayHit(d, hit23, r23)
    requires IsMaxThen(d, long, Inner(d, hit12, r12), Valid(c), left)
    requires IsMaxThen(d, long, Valid(a), Inner(d, hit23, r23), right)
    requires SpellsSubgroup(d, s) && Printable(d, a.groups) && Printable(d, b.groups) && Stays(d, MaxOf(b, c))
    requires MaxOf(a, b).Valid? && MaxOf(a, b).value.groups == {s} && MaxOf(a, b).value.subgroups == {}
    requires c.groups != {} && s !in c.groups && c.subgroups == {}
    ensures left.Valid? && right.Invalid?
  {
    InnerNamesSubgroup(d, long, a, b, r12.value, hit12, s);
    NoSharedSubgroups(MaxOf(a, b).value.(groups := {}, subgroups := {s}), c);
    IsMaxThenRaises(d, long, Inner(d, hit12, r12), Valid(c), left);
    InnerStays(d, long, b, c, r23, hit23);
    NothingShared(d, a, b, c, s);
    IsMaxThenRaises(d, long, Valid(a), Inner(d, hit23, r23), right);
  }

  lemma IsMaxThenRaises(d: Definition, long: bool, x: Result<Parts>, y: Result<Parts>, r: Result<string>)
    requires IsMaxThen(d, long, x, y, r)
    ensures r.Invalid? <==> MaxThen(x, y).Invalid?
  {
  }

  lemma NothingShared(d: Definition, a: Parts, b: Parts, c: Parts, s: string)
    requires MaxOf(a, b).Valid? && MaxOf(a, b).value.groups == {s} && Collides(d, s)
    requires Printable(d, a.groups) && Printable(d, b.groups) && c.groups != {} && s !in c.groups
    ensures MaxThen(Valid(a), MaxOf(b, c)).Invalid?
  {
    SharedAlone(d, a.groups, b.groups, c.groups, s);
  }

  lemma NoSharedSubgroups(x: Parts, c: Parts)
    requires x.groups == {} && c.subgroups == {}
    ensures MaxThen(Valid(x), Valid(c)).Valid?
  {
  }

  lemma InnerNamesSubgroup(d: Definition, long: bool, a: Parts, b: Parts, t: string, hit: bool, s: string)
    requires WellFormed(d) && NoAutoSelect(d) && NoGroupRules(d) && Normal(d, a) && Normal(d, b) && SpellsSubgroup(d, s)
    requires MaxOf(a, b).Valid? && MaxOf(a, b).value.groups == {s} && MaxOf(a, b).value.subgroups == {}
    requires PrintOf(d, long, MaxOf(a, b).value, t) && (hit ==> Printed(d, true, t))
    ensures Operand(d, hit, t) == Valid(MaxOf(a, b).value.(groups := {}, subgroups := {s}))
  {
    var m := MaxOf(a, b).value;
    DisplayNameEscapes(d, long, a, b, t, s);
    MaxRaised(d, a, b);
    SameFloor(d, m, m.(groups := {}, subgroups := {s}));
    SoundOperand(d, hit, t, m.(groups := {}, subgroups := {s}));
  }

  lemma SoundOperand(d: Definition, hit: bool, t: string, q: Parts)
    requires WellFormed(d) && NoAutoSelect(d) && (hit ==> Printed(d, true, t))
    requires Parse(d, t, STANDARD) == Valid(q) && q.groups == {} && Raise(d, q) == q
    ensures Operand(d, hit, t) == Valid(q)
  {
    OperandFacts(d, hit, t);
  }

  lemma SharedAlone(d: Definition, a: set<string>, b: set<string>, c: set<string>, s: string)
    requires MaxGroups(a, b) == Valid({s}) && Collides(d, s) && Printable(d, a) && Printable(d, b)
    requires c != {} && s !in c
    ensures MaxGroupsThen(Valid(a), MaxGroups(b, c)).Invalid?
  {
    assert a != {s} && b != {s};
    if a == {} || b == {} {
      OneSide(a, b, s);
    }
    assert a * (b * c) == (a * b) * c;
  }

  lemma OneSide(a: set<string>, b: set<string>, s: string)
    requires a + b == {s} && (a == {} || b == {})
    ensures a == {s} || b == {s}
  {
    assert a == {} ==> a + b == b;
    assert b == {} ==> a + b == a;
  }

  // ---------------------------------------------------------------- min

  /** The same for the minimum, which both sides are to see. */
  ghost predicate MinLaw(d: Definition, t: string, a: Parts, b: Parts, m: Parts) {
    if Fits(d, m) then MinFits(d, t, a, b, m) else Unread(d, t, m)
  }

  ghost predicate MinFits(d: Definition, t: string, a: Parts, b: Parts, m: Parts) {
    && ReadsBack(d, m, t)
    && (Printable(d, Filled(d, m).groups) ==> MinPrinted(d, t, a, b, m))
    && (NoGroupRules(d) && ReadAgain(d, m).Valid? ==> MinReread(d, t, a, b, m, ReadAgain(d, m).value))
  }

  ghost predicate MinPrinted(d: Definition, t: string, a: Parts, b: Parts, m: Parts) {
    && (OpenTo(d, Filled(d, m), a, b) <==> RequiredGroups(d, m.subgroups) <= m.groups)
    && (RequiredGroups(d, m.subgroups) <= m.groups ==> SeenByEither(d, t, a, b))
  }

  ghost predicate MinReread(d: Definition, t: string, a: Parts, b: Parts, m: Parts, q: Parts) {
    && (OpenTo(d, q, a, b) <==> NoWider(m.groups, q.groups) && NoWider(m.subgroups, q.subgroups))
    && (NoWider(m.groups, q.groups) && NoWider(m.subgroups, q.subgroups) ==> SeenByEither(d, t, a, b))
  }

  lemma MinTexts(d: Definition, long: bool, a: Parts, b: Parts, t: string)
    requires WellFormed(d) && NoAutoSelect(d) && Normal(d, a) && Normal(d, b)
    requires PrintOf(d, long, MinOf(a, b), t)
    ensures MinLaw(d, t, a, b, MinOf(a, b))
  {
    CombinedAreNamed(d, a, b);
    if Fits(d, MinOf(a, b)) {
      MinFitTexts(d, long, a, b, t);
    } else {
      UnfitIsUnread(d, long, MinOf(a, b), t);
    }
  }

  lemma MinFitTexts(d: Definition, long: bool, a: Parts, b: Parts, t: string)
    requires WellFormed(d) && NoAutoSelect(d) && Normal(d, a) && Normal(d, b)
    requires Fits(d, MinOf(a, b)) && PrintOf(d, long, MinOf(a, b), t)
    ensures MinFits(d, t, a, b, MinOf(a, b))
  {
    var m := MinOf(a, b);
    WellFormedIsConsistent(d);
    CombinedAreNamed(d, a, b);
    FitsIsFillable(d, m);
    MinRaised(d, a, b);
    PrintReadsBack(d, long, m, t);
    if Printable(d, Filled(d, m).groups) {
      MinPrintedHolds(d, t, a, b);
    }
    if NoGroupRules(d) && ReadAgain(d, m).Valid? {
      MinRereadHolds(d, t, a, b, ReadAgain(d, m).value);
    }
  }

  lemma MinPrintedHolds(d: Definition, t: string, a: Parts, b: Parts)
    requires Normal(d, a) && Normal(d, b) && Parse(d, t, STANDARD) == Valid(Filled(d, MinOf(a, b)))
    ensures MinPrinted(d, t, a, b, MinOf(a, b))
  {
    var m := MinOf(a, b);
    MinOpenWithRequiredGroups(d, a, b);
    if RequiredGroups(d, m.subgroups) <= m.groups {
      NothingAdded(d, m);
      MinSeen(d, t, a, b, m);
    }
  }

  lemma MinRereadHolds(d: Definition, t: string, a: Parts, b: Parts, q: Parts)
    requires NoGroupRules(d) && Normal(d, a) && Normal(d, b)
    requires Parse(d, t, STANDARD) == Valid(q) && ReadAs(d, MinOf(a, b), q)
    ensures MinReread(d, t, a, b, MinOf(a, b), q)
  {
    var m := MinOf(a, b);
    MinOpen(d, a, b, q);
    if NoWider(m.groups, q.groups) && NoWider(m.subgroups, q.subgroups) {
      MinSeen(d, t, a, b, q);
    }
  }

  lemma MinSeen(d: Definition, t: string, a: Parts, b: Parts, q: Parts)
    requires Parse(d, t, STANDARD) == Valid(q)
    requires var m := MinOf(a, b);
             q.lvl == m.lvl && q.req == m.req && NoWider(m.groups, q.groups) && NoWider(m.subgroups, q.subgroups)
    ensures SeenByEither(d, t, a, b)
  {
    var m := MinOf(a, b);
    forall user | SeesParts(d, user, a) || SeesParts(d, user, b) ensures Sees(d, user, t) {
      var u := Parse(d, user, STANDARD).value;
      MinBounds(u, a, b);
      NoWiderSees(u.groups, m.groups, q.groups);
      NoWiderSees(u.subgroups, m.subgroups, q.subgroups);
    }
  }

  /** What `min_classification` answers. */
  ghost predicate MinAnswer(d: Definition, long: bool, x: Result<Parts>, y: Result<Parts>, r: Result<Option<string>>) {
    match (x, y)
    case (Valid(a), Valid(b)) =>
      AnswersPrint(d, long, MinOf(a, b), r) && MinLaw(d, r.value.value, a, b, MinOf(a, b))
    case _ => r.Invalid?
  }

  /** The answer is a print of the parts. */
  ghost predicate AnswersPrint(d: Definition, long: bool, p: Parts, r: Result<Option<string>>) {
    r.Valid? && r.value.Some? && PrintOf(d, long, p, r.value.value)
  }

  // ---------------------------------------------------------------- users

  /** What the text `t` of a user made of what two users share grants, with required and limited groups too. */
  ghost predicate IntersectLaw(d: Definition, t: string, a: Parts, b: Parts) {
    var m := IntersectOf(a, b);
    && ReadsBack(d, m, t) && Filled(d, m) == m
    && (ReadAgain(d, m).Valid? ==>
          var q := ReadAgain(d, m).value;
          && (GrantsShared(d, q, a, b) <==> q.groups <= m.groups && q.subgroups <= m.subgroups)
          && (q.groups <= m.groups && q.subgroups <= m.subgroups ==> SeesOnlyShared(d, t, a, b)))
  }

  lemma IntersectTexts(d: Definition, long: bool, a: Parts, b: Parts, t: string)
    requires WellFormed(d) && NoAutoSelect(d) && Normal(d, a) && Normal(d, b)
    requires PrintOf(d, long, IntersectOf(a, b), t)
    ensures IntersectLaw(d, t, a, b)
  {
    var m := IntersectOf(a, b);
    IntersectClosed(d, a, b);
    ClosedIsFilled(d, m);
    MinRaised(d, a, b);
    PrintReadsBack(d, long, m, t);
    if ReadAgain(d, m).Valid? {
      var q := ReadAgain(d, m).value;
      IntersectSound(d, a, b, q);
      if q.groups <= m.groups && q.subgroups <= m.subgroups {
        IntersectSeen(d, t, a, b, q);
      }
    }
  }

  lemma IntersectSeen(d: Definition, t: string, a: Parts, b: Parts, q: Parts)
    requires Parse(d, t, STANDARD) == Valid(q)
    requires var m := IntersectOf(a, b);
             q.lvl == m.lvl && q.req == m.req && q.groups <= m.groups && q.subgroups <= m.subgroups
    ensures SeesOnlyShared(d, t, a, b)
  {
    forall text | Sees(d, t, text) ensures PartsSee(d, a, text) && PartsSee(d, b, text) {
      var p := Parse(d, text, STANDARD).value;
      LesserUser(q, a, p);
      LesserUser(q, b, p);
    }
  }

  lemma LesserUser(u: Parts, v: Parts, p: Parts)
    requires u.lvl <= v.lvl && u.req <= v.req && u.groups <= v.groups && u.subgroups <= v.subgroups
    ensures Accessible(u, p) ==> Accessible(v, p)
  {
  }

  /** What `intersect_user_classification` answers. */
  ghost predicate IntersectAnswer(d: Definition, long: bool, x: Result<Parts>, y: Result<Parts>,
                                  r: Result<Option<string>>)
  {
    match (x, y)
    case (Valid(a), Valid(b)) => AnswersPrint(d, long, IntersectOf(a, b), r) && IntersectLaw(d, r.value.value, a, b)
    case _ => r.Invalid?
  }

  /** What the text `t` of a user made of all that two users have grants. */
  ghost predicate BuildLaw(d: Definition, t: string, a: Parts, b: Parts) {
    if Fits(d, BuildOf(a, b)) then BuildFits(d, t, a, b) else Unread(d, t, BuildOf(a, b))
  }

  ghost predicate BuildFits(d: Definition, t: string, a: Parts, b: Parts) {
    var m := BuildOf(a, b);
    && ReadsBack(d, m, t) && Filled(d, m) == m
    && (ReadAgain(d, m).Valid? ==>
          var q := ReadAgain(d, m).value;
          && (GrantsAll(d, q, a, b) <==> m.groups <= q.groups && m.subgroups <= q.subgroups)
          && (m.groups <= q.groups && m.subgroups <= q.subgroups ==> SeesAll(d, t, a, b)))
  }

  lemma BuildTexts(d: Definition, long: bool, a: Parts, b: Parts, t: string)
    requires WellFormed(d) && NoAutoSelect(d) && Normal(d, a) && Normal(d, b)
    requires PrintOf(d, long, BuildOf(a, b), t)
    ensures BuildLaw(d, t, a, b)
  {
    CombinedAreNamed(d, a, b);
    if Fits(d, BuildOf(a, b)) {
      BuildFitTexts(d, long, a, b, t);
    } else {
      UnfitIsUnread(d, long, BuildOf(a, b), t);
    }
  }

  lemma BuildFitTexts(d: Definition, long: bool, a: Parts, b: Parts, t: string)
    requires WellFormed(d) && NoAutoSelect(d) && Normal(d, a) && Normal(d, b)
    requires Fits(d, BuildOf(a, b)) && PrintOf(d, long, BuildOf(a, b), t)
    ensures BuildFits(d, t, a, b)
  {
    var m := BuildOf(a, b);
    BuildClosed(d, a, b);
    ClosedIsFilled(d, m);
    BuildRaised(d, a, b);
    PrintReadsBack(d, long, m, t);
    if ReadAgain(d, m).Valid? {
      var q := ReadAgain(d, m).value;
      BuildSeesAll(d, a, b, q);
      if m.groups <= q.groups && m.subgroups <= q.subgroups {
        BuildSeen(d, t, a, b, q);
      }
    }
  }

  lemma BuildSeen(d: Definition, t: string, a: Parts, b: Parts, q: Parts)
    requires Parse(d, t, STANDARD) == Valid(q)
    requires var m := BuildOf(a, b);
             q.lvl == m.lvl && q.req == m.req && m.groups <= q.groups && m.subgroups <= q.subgroups
    ensures SeesAll(d, t, a, b)
  {
    var m := BuildOf(a, b);
    forall text | PartsSee(d, a, text) || PartsSee(d, b, text) ensures Sees(d, t, text) {
      var p := Parse(d, text, STANDARD).value;
      BuildComplete(a, b, p);
      SeesMore(m.groups, q.groups, p.groups);
      SeesMore(m.subgroups, q.subgroups, p.subgroups);
    }
  }

  /** What `build_user_classification` answers. */
  ghost predicate BuildAnswer(d: Definition, long: bool, x: Result<Parts>, y: Result<Parts>,
                              r: Result<Option<string>>)
  {
    match (x, y)
    case (Valid(a), Valid(b)) => AnswersPrint(d, long, BuildOf(a, b), r) && BuildLaw(d, r.value.value, a, b)
    case _ => r.Invalid?
  }
}
