/** The classification engine: parsing and printing as the loops of the Classification class,
    normalization behind its two caches, and the operations on classification texts. */
module Engine {
  import opened Marking
  import opened MarkingRoundTrip
  import opened Normalization
  import opened Access
  import opened Formats
  import Parsing
  import Printing

  /** `t` is printed from these lists of the parts `p`. */
  ghost predicate Prints(d: Definition, long: bool, p: Parts, l: Lists4, hash: Hash, t: string) {
    && ListsOf(d, long, p, l) && Lists(hash)
    && Print(d, l.lvl, l.req, l.groups, l.subgroups, long, false, hash) == Valid(t)
  }

  /** `t` is what the printer makes of the parts `p`, in some order of Python's sets. */
  ghost predicate PrintOf(d: Definition, long: bool, p: Parts, t: string) {
    exists l: Lists4, hash: Hash :: Prints(d, long, p, l, hash, t)
  }

  /** A text the printer made of closed parts. */
  ghost predicate Printed(d: Definition, long: bool, t: string) {
    exists p :: Closed(d, p) && PrintOf(d, long, p, t)
  }

  ghost predicate AllPrinted(d: Definition, long: bool, ts: set<string>) {
    forall t :: t in ts ==> Printed(d, long, t)
  }

  lemma OneMorePrinted(d: Definition, long: bool, ts: set<string>, t: string)
    requires AllPrinted(d, long, ts) && Printed(d, long, t)
    ensures AllPrinted(d, long, ts + {t})
  {
  }

  /** Steps 3 and 5 do nothing without auto-selection. */
  lemma SkipAutoIsNothing(d: Definition, l: Lists4, long: bool, skipAuto: bool, hash: Hash)
    requires NoAutoSelect(d)
    ensures Print(d, l.lvl, l.req, l.groups, l.subgroups, long, skipAuto, hash)
            == Print(d, l.lvl, l.req, l.groups, l.subgroups, long, false, hash)
  {
  }

  /** Named parts can be printed. */
  lemma CanPrint(d: Definition, long: bool, p: Parts, l: Lists4, skipAuto: bool, hash: Hash)
    requires WellFormed(d) && NoAutoSelect(d) && Lists(hash) && Named(d, p) && ListsOf(d, long, p, l)
    ensures var r := Print(d, l.lvl, l.req, l.groups, l.subgroups, long, skipAuto, hash);
            r.Valid? && PrintOf(d, long, p, r.value)
  {
    SkipAutoIsNothing(d, l, long, skipAuto, hash);
    var _, _ := PrintThenRead(d, p, l.req, l.groups, l.subgroups, long, false, hash, STANDARD);
    var r := Print(d, l.lvl, l.req, l.groups, l.subgroups, long, false, hash);
    assert Prints(d, long, p, l, hash, r.value);
  }

  lemma LevelNotEmpty(d: Definition, long: bool, n: nat)
    requires WellFormedLevels(d) && LevelName(d, long, n).Valid?
    ensures LevelName(d, long, n).value != ""
  {
  }

  lemma PrintNotEmpty(d: Definition, l: Lists4, long: bool, hash: Hash)
    requires WellFormedLevels(d)
    ensures Print(d, l.lvl, l.req, l.groups, l.subgroups, long, false, hash) != Valid("")
  {
    if LevelName(d, long, Max(l.lvl, MaxRequired(d, l.req))).Valid? {
      LevelNotEmpty(d, long, Max(l.lvl, MaxRequired(d, l.req)));
    }
  }

  lemma PrintedNotEmpty(d: Definition, long: bool, t: string)
    requires WellFormedLevels(d) && Printed(d, long, t)
    ensures t != ""
  {
    var p :| Closed(d, p) && PrintOf(d, long, p, t);
    var l: Lists4, hash: Hash :| Prints(d, long, p, l, hash, t);
    PrintNotEmpty(d, l, long, hash);
  }

  // ---------------------------------------------------------------- facts about printed texts

  /** A text printed from named parts is worded in its format: the level raised, with groups the subgroups require. */
  lemma PrintOfIsWorded(d: Definition, long: bool, p: Parts, t: string) returns (gs: set<string>)
    requires WellFormed(d) && NoAutoSelect(d) && Named(d, p) && PrintOf(d, long, p, t)
    ensures p.groups <= gs <= Filled(d, p).groups && (Fits(d, p) ==> gs == Filled(d, p).groups)
    ensures InFormat(d, long, Raise(d, p).(groups := gs), t)
  {
    var l: Lists4, hash: Hash :| Prints(d, long, p, l, hash, t);
    gs := PrintedIsWorded(d, p, l, long, false, hash);
  }

  lemma ClosedIsWorded(d: Definition, long: bool, p: Parts, t: string)
    requires WellFormed(d) && NoAutoSelect(d) && Closed(d, p) && PrintOf(d, long, p, t)
    ensures InFormat(d, long, Raise(d, p), t)
  {
    var gs := PrintOfIsWorded(d, long, p, t);
    ClosedIsFilled(d, p);
    assert Raise(d, p).(groups := gs) == Raise(d, p);
  }

  /** Every printed text, and so every cached one, is worded in its format. */
  lemma PrintedInFormat(d: Definition, long: bool, t: string) returns (p: Parts)
    requires WellFormed(d) && NoAutoSelect(d) && Printed(d, long, t)
    ensures Closed(d, p) && InFormat(d, long, p, t)
  {
    var q :| Closed(d, q) && PrintOf(d, long, q, t);
    ClosedIsWorded(d, long, q, t);
    RaisedLevelExists(d, q);
    p := Raise(d, q);
  }

  /** A printed text parses to its parts exactly when their groups are printable. */
  lemma PrintOfParses(d: Definition, long: bool, p: Parts, t: string)
    requires WellFormed(d) && NoAutoSelect(d) && Fillable(d, p) && PrintOf(d, long, p, t)
    ensures Parse(d, t, STANDARD) == Valid(Raise(d, Filled(d, p))) <==> Printable(d, Filled(d, p).groups)
  {
    var l: Lists4, hash: Hash :| Prints(d, long, p, l, hash, t);
    ParseInvertsPrint(d, p, l.req, l.groups, l.subgroups, long, false, hash);
  }

  /** What parsing finds in a printed text: its own parts, and whatever its group marking means. */
  lemma PrintOfMeaning(d: Definition, long: bool, p: Parts, t: string, o: Options) returns (shown: seq<string>)
    requires WellFormed(d) && NoAutoSelect(d) && Fillable(d, p) && PrintOf(d, long, p, t)
    ensures Shows(d, long, Filled(d, p).groups, shown)
    ensures var m := GroupMeaning(d, long, shown);
            Parse(d, t, o)
            == Close(d, Raise(d, p).lvl, Found(p.req + m.req, m.groups, m.subgroups + p.subgroups, m.unknown, m.bad), o)
  {
    var l: Lists4, hash: Hash :| Prints(d, long, p, l, hash, t);
    shown := PrintThenParse(d, p, l.req, l.groups, l.subgroups, long, false, hash, o);
  }

  /** The same for parts that may not fit: the text shows some of the groups printing would add. */
  lemma PrintOfShown(d: Definition, long: bool, p: Parts, t: string, o: Options)
    returns (gs: set<string>, shown: seq<string>)
    requires WellFormed(d) && NoAutoSelect(d) && Named(d, p) && PrintOf(d, long, p, t)
    ensures p.groups <= gs <= Filled(d, p).groups && Shows(d, long, gs, shown)
    ensures var m := GroupMeaning(d, long, shown);
            Parse(d, t, o)
            == Close(d, Raise(d, p).lvl, Found(p.req + m.req, m.groups, m.subgroups + p.subgroups, m.unknown, m.bad), o)
  {
    var l: Lists4, hash: Hash :| Prints(d, long, p, l, hash, t);
    gs, shown := PrintThenRead(d, p, l.req, l.groups, l.subgroups, long, false, hash, o);
  }

  lemma SolitaryIsNoReq(d: Definition, g: string, shown: seq<string>)
    requires WellFormed(d) && Collides(d, g) && shown == [g]
    ensures Meaning(d, GroupText(d, false, shown)).req == {} && Meaning(d, GroupText(d, true, shown)).req == {}
  {
    var p := ParamsOf(d, g).solitary.value;
    assert p !in ReqNames(d);
  }

  lemma GroupMeaningHasNoReq(d: Definition, long: bool, gs: set<string>, shown: seq<string>)
    requires WellFormed(d) && Shows(d, long, gs, shown)
    ensures GroupMeaning(d, long, shown).req == {}
  {
    if shown == [] {
    } else if g :| gs == {g} && Collides(d, g) {
      NotOneShown(d, long, gs, shown, g);
      var h := OneShown(d, long, gs, shown);
      assert h in gs;
      SolitaryIsNoReq(d, g, shown);
    } else {
      MeaningOfGroupText(d, long, gs, shown);
    }
  }

  lemma CloseKeeps(d: Definition, lvl: nat, f: Found, o: Options)
    requires Close(d, lvl, f, o).Valid?
    ensures Close(d, lvl, f, o).value.lvl == lvl && Close(d, lvl, f, o).value.req == f.req
  {
  }

  lemma NothingRequired(d: Definition, long: bool, gs: set<string>, shown: seq<string>, req: set<string>)
    requires WellFormed(d) && Shows(d, long, gs, shown)
    ensures req + GroupMeaning(d, long, shown).req == req
  {
    GroupMeaningHasNoReq(d, long, gs, shown);
  }

  /** Whatever a printed text parses to, the level and the required items are the printed ones. */
  lemma PrintOfKeeps(d: Definition, long: bool, p: Parts, t: string, o: Options)
    requires WellFormed(d) && NoAutoSelect(d) && Fillable(d, p) && PrintOf(d, long, p, t) && Parse(d, t, o).Valid?
    ensures Parse(d, t, o).value.req == p.req && Parse(d, t, o).value.lvl == Raise(d, p).lvl
  {
    var shown := PrintOfMeaning(d, long, p, t, o);
    var m := GroupMeaning(d, long, shown);
    NothingRequired(d, long, Filled(d, p).groups, shown, p.req);
    CloseKeeps(d, Raise(d, p).lvl, Found(p.req + m.req, m.groups, m.subgroups + p.subgroups, m.unknown, m.bad), o);
  }

  /** Whatever a printed text parses to, its level is already raised. */
  lemma PrintedIsRaised(d: Definition, long: bool, t: string, o: Options)
    requires WellFormed(d) && NoAutoSelect(d) && Printed(d, long, t) && Parse(d, t, o).Valid?
    ensures Raise(d, Parse(d, t, o).value) == Parse(d, t, o).value
  {
    var p :| Closed(d, p) && PrintOf(d, long, p, t);
    ClosedIsFilled(d, p);
    PrintOfKeeps(d, long, p, t, o);
    SameFloor(d, p, Parse(d, t, o).value);
  }

  lemma SameFloor(d: Definition, p: Parts, q: Parts)
    requires q.req == p.req && q.lvl == Raise(d, p).lvl
    ensures Raise(d, q) == q
  {
  }

  /** Without dynamic groups a printed text is a fixed point: it parses, and to normal parts. */
  lemma PrintedIsFixed(d: Definition, long: bool, t: string)
    requires WellFormed(d) && NoAutoSelect(d) && !d.dynamicGroups && Printed(d, long, t)
    ensures Parse(d, t, STANDARD).Valid?
    ensures Normal(d, Parse(d, t, STANDARD).value)
  {
    var p :| Closed(d, p) && PrintOf(d, long, p, t);
    ClosedIsFilled(d, p);
    PrintOfParses(d, long, p, t);
    ConfiguredArePrintable(d, p);
    ParseCloses(d, t, STANDARD);
    NormalFloor(d, p);
  }

  lemma ConfiguredArePrintable(d: Definition, p: Parts)
    requires Closed(d, p) && !d.dynamicGroups
    ensures Printable(d, p.groups)
  {
    forall g ensures p.groups == {g} ==> !Collides(d, g) {
      if p.groups == {g} { assert g in p.groups; }
    }
  }

  lemma OptionsAgree(d: Definition, t: string, o: Options)
    requires o.getDynamic && !o.autoSelect
    requires Parse(d, t, o).Valid? && (d.dynamicGroups || Parse(d, t, STANDARD).Valid?)
    ensures Parse(d, t, STANDARD) == Parse(d, t, o)
  {
  }

  lemma OptionsOnlyRelax(d: Definition, t: string, o: Options)
    requires o.getDynamic && !o.autoSelect && Parse(d, t, STANDARD).Valid?
    ensures Parse(d, t, o) == Parse(d, t, STANDARD)
  {
  }

  // ---------------------------------------------------------------- normalization, computed and cached

  /** What `normalize_classification` answers past its caches. */
  ghost predicate Computed(d: Definition, long: bool, text: string, o: Options, r: Result<string>) {
    match Parse(d, text, o)
    case Valid(p) => r.Valid? && PrintOf(d, long, p, r.value)
    case Invalid => r.Invalid?
  }

  /** Both answers raise, or both are texts that parse alike. */
  ghost predicate SameMeaning(d: Definition, a: Result<string>, b: Result<string>) {
    && (a.Valid? <==> b.Valid?)
    && (a.Valid? ==> Parse(d, a.value, STANDARD) == Parse(d, b.value, STANDARD))
  }

  /** A marking that parses and whose groups survive printing. */
  ghost predicate Sound(d: Definition, text: string) {
    SoundBy(d, text, STANDARD)
  }

  ghost predicate SoundBy(d: Definition, text: string, o: Options) {
    Parse(d, text, o).Valid? && Printable(d, Parse(d, text, o).value.groups)
  }

  /** The cache shows nothing of itself for `text`: the cached answer means what any computed one does. */
  ghost predicate Transparent(d: Definition, long: bool, text: string, o: Options) {
    forall c :: Computed(d, long, text, o, c) ==> SameMeaning(d, Valid(text), c)
  }

  /** A printed text normalizes to a text of the same parts exactly when it parses and its groups are printable. */
  lemma PrintedAgain(d: Definition, long: bool, t: string, o: Options, c: Result<string>)
    requires WellFormed(d) && NoAutoSelect(d) && Printed(d, long, t) && o.getDynamic && !o.autoSelect
    requires Computed(d, long, t, o, c)
    ensures SameMeaning(d, Valid(t), c) <==> SoundBy(d, t, o)
  {
    if Parse(d, t, o).Valid? {
      var p := Parse(d, t, o).value;
      if !d.dynamicGroups {
        PrintedIsFixed(d, long, t);
      }
      OptionsAgree(d, t, o);
      PrintedIsRaised(d, long, t, o);
      ParseCloses(d, t, o);
      ClosedIsFilled(d, p);
      PrintOfParses(d, long, p, c.value);
    }
  }

  /** Some order of a set. */
  ghost function Listing(s: set<string>): seq<string> {
    if s == {} then []
    else
      var x :| x in s;
      [x] + Listing(s - {x})
  }

  lemma {:induction false} ListingLists(s: set<string>)
    ensures Elems(Listing(s)) == s && |Listing(s)| == |s|
  {
    if s != {} {
      var x: string :| x in s && Listing(s) == [x] + Listing(s - {x});
      var rest := Listing(s - {x});
      ListingLists(s - {x});
      assert Elems([x] + rest) == {x} + Elems(rest);
      assert s == {x} + (s - {x});
    }
  }

  lemma SomeLists(d: Definition, long: bool, p: Parts) returns (l: Lists4, hash: Hash)
    ensures Lists(hash) && ListsOf(d, long, p, l)
  {
    hash := s => Listing(s);
    forall s: set<string> ensures Elems(hash(s)) == s && |hash(s)| == |s| {
      ListingLists(s);
    }
    l := Lists4(p.lvl, hash(ShownReqs(d, long, p.req)), hash(ShownGroups(d, long, p.groups)),
      hash(ShownSubs(d, long, p.subgroups)));
  }

  lemma SomeText(d: Definition, long: bool, p: Parts) returns (t: string)
    requires WellFormed(d) && NoAutoSelect(d) && Named(d, p)
    ensures PrintOf(d, long, p, t)
  {
    var l, hash := SomeLists(d, long, p);
    CanPrint(d, long, p, l, false, hash);
    t := Print(d, l.lvl, l.req, l.groups, l.subgroups, long, false, hash).value;
  }

  /** Any computed answer there may be. */
  lemma SomeComputed(d: Definition, long: bool, text: string, o: Options) returns (c: Result<string>)
    requires WellFormed(d) && NoAutoSelect(d) && !o.autoSelect
    ensures Computed(d, long, text, o, c)
  {
    if Parse(d, text, o).Valid? {
      var p := Parse(d, text, o).value;
      ParseCloses(d, text, o);
      ClosedIsFilled(d, p);
      var t := SomeText(d, long, p);
      c := Valid(t);
    } else {
      c := Invalid;
    }
  }

  /** A cached text answers for itself like the computation exactly when it parses and its groups are printable; without
      dynamic groups it always does. */
  lemma CachedAnswer(d: Definition, long: bool, t: string, o: Options)
    requires WellFormed(d) && NoAutoSelect(d) && Printed(d, long, t) && o.getDynamic && !o.autoSelect
    ensures Transparent(d, long, t, o) <==> SoundBy(d, t, o)
    ensures !d.dynamicGroups ==> SoundBy(d, t, o)
  {
    forall c | Computed(d, long, t, o, c) ensures SameMeaning(d, Valid(t), c) <==> SoundBy(d, t, o) {
      PrintedAgain(d, long, t, o, c);
    }
    var some := SomeComputed(d, long, t, o);
    if !d.dynamicGroups {
      PrintedIsFixed(d, long, t);
      OptionsOnlyRelax(d, t, o);
      ConfiguredArePrintable(d, Parse(d, t, o).value);
    }
  }

  /** Parsing the normalized text of a parsed marking returns its parts with the level raised,
      exactly when its groups are printable. */
  lemma NormalizedRoundTrip(d: Definition, long: bool, text: string, o: Options, c: Result<string>)
    requires WellFormed(d) && NoAutoSelect(d) && !o.autoSelect && Computed(d, long, text, o, c)
    requires Parse(d, text, o).Valid?
    ensures Printed(d, long, c.value)
    ensures var p := Parse(d, text, o).value;
            Parse(d, c.value, STANDARD) == Valid(Raise(d, p)) <==> Printable(d, p.groups)
  {
    var p := Parse(d, text, o).value;
    ParseCloses(d, text, o);
    ClosedIsFilled(d, p);
    PrintOfParses(d, long, p, c.value);
  }

  /** Converting a normalized marking to the short format and back is the identity on its parts exactly when its groups
      are printable: so is every further printing, in either format. */
  lemma ConversionKeepsParts(d: Definition, p: Parts, long: bool, t: string)
    requires WellFormed(d) && NoAutoSelect(d) && Normal(d, p) && PrintOf(d, long, p, t)
    ensures Parse(d, t, STANDARD) == Valid(p) <==> Printable(d, p.groups)
  {
    ClosedIsFilled(d, p);
    PrintOfParses(d, long, p, t);
  }

  // ---------------------------------------------------------------- names and sets of names

  lemma ShownReqMeet(d: Definition, long: bool, a: set<string>, b: set<string>)
    requires Bilingual(d.reqStl, d.reqLts, d.params) && a <= d.reqStl.Keys && b <= d.reqStl.Keys
    ensures ShownReqs(d, long, a) * ShownReqs(d, long, b) == ShownReqs(d, long, a * b)
    ensures ShownReqs(d, long, a) + ShownReqs(d, long, b) == ShownReqs(d, long, a + b)
    ensures ShownReqs(d, long, a) <= ShownReqs(d, long, b) <==> a <= b
  {
    forall x, y | x in a && y in b && ShownReq(d, long, x) == ShownReq(d, long, y) ensures x == y {
      assert !long || d.reqLts[d.reqStl[x]] == d.reqLts[d.reqStl[y]];
    }
    if ShownReqs(d, long, a) <= ShownReqs(d, long, b) {
      forall x | x in a ensures x in b {
        assert ShownReq(d, long, x) in ShownReqs(d, long, b);
        var y :| y in b && ShownReq(d, long, y) == ShownReq(d, long, x);
      }
    }
  }

  lemma ShownSubMeet(d: Definition, long: bool, a: set<string>, b: set<string>)
    requires Bilingual(d.subStl, d.subLts, d.params) && a <= d.subStl.Keys && b <= d.subStl.Keys
    ensures ShownSubs(d, long, a) * ShownSubs(d, long, b) == ShownSubs(d, long, a * b)
    ensures ShownSubs(d, long, a) + ShownSubs(d, long, b) == ShownSubs(d, long, a + b)
  {
    forall x, y | x in a && y in b && ShownSub(d, long, x) == ShownSub(d, long, y) ensures x == y {
      assert !long || d.subLts[d.subStl[x]] == d.subLts[d.subStl[y]];
    }
  }

  lemma ShownGroupMeet(d: Definition, long: bool, a: set<string>, b: set<string>)
    requires WellFormed(d) && forall g :: g in a + b ==> Token(d, g)
    ensures ShownGroups(d, long, a) * ShownGroups(d, long, b) == ShownGroups(d, long, a * b)
    ensures ShownGroups(d, long, a) + ShownGroups(d, long, b) == ShownGroups(d, long, a + b)
  {
    TokensInjective(d, long, a + b);
    ShownGroupMeetInjective(d, long, a, b);
    ShownUnion(d, long, a, b);
  }

  lemma ShownGroupMeetInjective(d: Definition, long: bool, a: set<string>, b: set<string>)
    requires forall x, y :: x in a + b && y in a + b && ShownGroup(d, long, x) == ShownGroup(d, long, y) ==> x == y
    ensures ShownGroups(d, long, a) * ShownGroups(d, long, b) == ShownGroups(d, long, a * b)
  {
  }

  /** The parts normalization gives a marking. */
  ghost function NormalParts(d: Definition, text: string): Parts
    requires Parse(d, text, STANDARD).Valid?
  {
    Raise(d, Parse(d, text, STANDARD).value)
  }

  lemma WellFormedIsUsable(d: Definition)
    requires WellFormed(d)
    ensures Parsing.Usable(d)
    ensures forall a :: a in d.groupAliasOrder ==> a in d.groupAliases
  {
    RequiredNamesNotEmpty(d);
  }

  lemma RequiredNamesNotEmpty(d: Definition)
    requires Bilingual(d.groupStl, d.groupLts, d.params)
    requires forall x :: x in d.params && d.params[x].requireGroup.Some? ==>
      d.params[x].requireGroup.value in d.groupStl
    ensures forall x :: x in d.params && d.params[x].requireGroup.Some? ==> d.params[x].requireGroup.value != ""
  {
  }

  // ---------------------------------------------------------------- combining lists of names

  ghost predicate GroupsAgree(d: Definition, long: bool, names: Result<set<string>>, max: Result<set<string>>) {
    names == if max.Valid? then Valid(ShownGroups(d, long, max.value)) else Invalid
  }

  ghost predicate SubsAgree(d: Definition, long: bool, names: Result<set<string>>, max: Result<set<string>>) {
    names == if max.Valid? then Valid(ShownSubs(d, long, max.value)) else Invalid
  }

  lemma ShownGroupsEmpty(d: Definition, long: bool, gs: set<string>)
    ensures ShownGroups(d, long, gs) == {} <==> gs == {}
    ensures ShownSubs(d, long, gs) == {} <==> gs == {}
  {
    if g :| g in gs {
      assert ShownGroup(d, long, g) in ShownGroups(d, long, gs);
      assert ShownSub(d, long, g) in ShownSubs(d, long, gs);
    }
  }

  lemma MaxGroupsShown(d: Definition, long: bool, a: set<string>, b: set<string>)
    requires WellFormed(d) && forall g :: g in a + b ==> Token(d, g)
    ensures GroupsAgree(d, long, MaxGroups(ShownGroups(d, long, a), ShownGroups(d, long, b)), MaxGroups(a, b))
    ensures MinGroups(ShownGroups(d, long, a), ShownGroups(d, long, b)) == ShownGroups(d, long, MinGroups(a, b))
  {
    ShownGroupMeet(d, long, a, b);
    ShownGroupsEmpty(d, long, a);
    ShownGroupsEmpty(d, long, b);
    ShownGroupsEmpty(d, long, a * b);
  }

  lemma MaxSubsShown(d: Definition, long: bool, a: set<string>, b: set<string>)
    requires Bilingual(d.subStl, d.subLts, d.params) && a <= d.subStl.Keys && b <= d.subStl.Keys
    ensures SubsAgree(d, long, MaxGroups(ShownSubs(d, long, a), ShownSubs(d, long, b)), MaxGroups(a, b))
    ensures MinGroups(ShownSubs(d, long, a), ShownSubs(d, long, b)) == ShownSubs(d, long, MinGroups(a, b))
  {
    ShownSubMeet(d, long, a, b);
    ShownGroupsEmpty(d, long, a);
    ShownGroupsEmpty(d, long, b);
    ShownGroupsEmpty(d, long, a * b);
  }

  /** What the set operations on shown names amount to, for two closed classifications. */
  lemma CombineShown(d: Definition, long: bool, a: Parts, b: Parts)
    requires WellFormed(d) && Closed(d, a) && Closed(d, b)
    ensures GroupsAgree(d, long, MaxGroups(ShownGroups(d, long, a.groups), ShownGroups(d, long, b.groups)),
                        MaxGroups(a.groups, b.groups))
    ensures SubsAgree(d, long, MaxGroups(ShownSubs(d, long, a.subgroups), ShownSubs(d, long, b.subgroups)),
                      MaxGroups(a.subgroups, b.subgroups))
    ensures MinGroups(ShownGroups(d, long, a.groups), ShownGroups(d, long, b.groups))
            == ShownGroups(d, long, MinGroups(a.groups, b.groups))
    ensures MinGroups(ShownSubs(d, long, a.subgroups), ShownSubs(d, long, b.subgroups))
            == ShownSubs(d, long, MinGroups(a.subgroups, b.subgroups))
  {
    MaxGroupsShown(d, long, a.groups, b.groups);
    MaxSubsShown(d, long, a.subgroups, b.subgroups);
  }

  lemma MeetShown(d: Definition, long: bool, a: Parts, b: Parts)
    requires WellFormed(d) && Closed(d, a) && Closed(d, b)
    ensures ShownReqs(d, long, a.req) * ShownReqs(d, long, b.req) == ShownReqs(d, long, a.req * b.req)
    ensures ShownReqs(d, long, a.req) + ShownReqs(d, long, b.req) == ShownReqs(d, long, a.req + b.req)
    ensures ShownGroups(d, long, a.groups) * ShownGroups(d, long, b.groups) == ShownGroups(d, long, a.groups * b.groups)
    ensures ShownGroups(d, long, a.groups) + ShownGroups(d, long, b.groups) == ShownGroups(d, long, a.groups + b.groups)
    ensures ShownSubs(d, long, a.subgroups) * ShownSubs(d, long, b.subgroups)
            == ShownSubs(d, long, a.subgroups * b.subgroups)
    ensures ShownSubs(d, long, a.subgroups) + ShownSubs(d, long, b.subgroups)
            == ShownSubs(d, long, a.subgroups + b.subgroups)
  {
    ShownReqMeet(d, long, a.req, b.req);
    ShownGroupMeet(d, long, a.groups, b.groups);
    ShownSubMeet(d, long, a.subgroups, b.subgroups);
  }

  // ---------------------------------------------------------------- the combined parts can be printed

  lemma CombinedAreNamed(d: Definition, a: Parts, b: Parts)
    requires Closed(d, a) && Closed(d, b)
    ensures MaxOf(a, b).Valid? ==> Named(d, MaxOf(a, b).value)
    ensures Named(d, MinOf(a, b)) && Named(d, IntersectOf(a, b)) && Named(d, BuildOf(a, b))
  {
  }

  /** The path that misses the cache: parse, then print. */
  method Compute(d: Definition, text: string, long: bool, skipAuto: bool, o: Options, hash: Hash)
    returns (r: Result<string>)
    requires WellFormed(d) && NoAutoSelect(d) && Lists(hash) && !o.autoSelect
    ensures Computed(d, long, text, o, r)
    ensures r.Valid? ==> Printed(d, long, r.value) && InFormat(d, long, Raise(d, Parse(d, text, o).value), r.value)
  {
    WellFormedIsUsable(d);
    var l := Parsing.GetParts(d, text, long, o, hash);
    if l.Invalid? {
      return Invalid;
    }
    r := Printing.GetText(d, l.value, long, skipAuto, hash);
    ParseCloses(d, text, o);
    ClosedIsFilled(d, Parse(d, text, o).value);
    CanPrint(d, long, Parse(d, text, o).value, l.value, skipAuto, hash);
    ClosedIsWorded(d, long, Parse(d, text, o).value, r.value);
    NormalizedRoundTrip(d, long, text, o, r);
  }
}
