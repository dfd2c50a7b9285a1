/** Definitions with automatic groups and subgroups: what printing adds to a marking, and that parsing finds exactly
    that. */
module AutoSelect {
  import opened Marking
  import opened MarkingText
  import opened MarkingRoundTrip
  import opened Normalization
  import opened Strings
  import opened Formats

  /** The subgroups a text shows: the automatic ones too, when there are any. */
  function ShownWith(d: Definition, skipAuto: bool, subgroups: set<string>): set<string> {
    if subgroups != {} && !skipAuto then subgroups + Elems(d.subAuto) else subgroups
  }

  /** The parts a text shows: those subgroups, the groups they require, and the automatic groups when there are any. */
  function Selected(d: Definition, skipAuto: bool, p: Parts): Parts {
    var ss := ShownWith(d, skipAuto, p.subgroups);
    var gs := p.groups + RequiredGroups(d, ss);
    p.(groups := if gs != {} && !skipAuto then gs + Elems(d.groupAuto) else gs, subgroups := ss)
  }

  /** Without automatic items, or when they are skipped, only required groups are added. */
  lemma SelectedIsFilled(d: Definition, skipAuto: bool, p: Parts)
    requires NoAutoSelect(d) || skipAuto
    ensures Selected(d, skipAuto, p) == Filled(d, p)
  {
    assert Elems([]) == {};
    assert p.subgroups + {} == p.subgroups;
    assert p.groups + RequiredGroups(d, p.subgroups) + {} == p.groups + RequiredGroups(d, p.subgroups);
  }

  /** Selecting once is enough. */
  lemma SelectedTwice(d: Definition, skipAuto: bool, p: Parts)
    ensures Selected(d, skipAuto, Selected(d, skipAuto, p)) == Selected(d, skipAuto, p)
  {
    var q := Selected(d, skipAuto, p);
    assert ShownWith(d, skipAuto, q.subgroups) == q.subgroups;
    assert q.groups + RequiredGroups(d, q.subgroups) == q.groups;
    assert q.groups != {} && !skipAuto ==> q.groups + Elems(d.groupAuto) == q.groups;
  }

  // ---------------------------------------------------------------- the lists shown

  lemma SubsUnion(d: Definition, long: bool, a: set<string>, b: set<string>)
    ensures ShownSubs(d, long, a + b) == ShownSubs(d, long, a) + ShownSubs(d, long, b)
  {
  }

  lemma SomeShown(d: Definition, long: bool, ss: set<string>, subs: seq<string>)
    requires Elems(subs) == ShownSubs(d, long, ss)
    ensures subs == [] <==> ss == {}
  {
    if s :| s in ss { assert ShownSub(d, long, s) in Elems(subs); }
    if subs != [] { assert subs[0] in Elems(subs); }
  }

  lemma SubsSelected(d: Definition, long: bool, skipAuto: bool, ss: set<string>, subs: seq<string>, hash: Hash)
    requires Lists(hash) && Elems(subs) == ShownSubs(d, long, ss)
    ensures Elems(SubsToShow(d, long, skipAuto, subs, hash)) == ShownSubs(d, long, ShownWith(d, skipAuto, ss))
    ensures Once(subs) ==> Once(SubsToShow(d, long, skipAuto, subs, hash))
  {
    SomeShown(d, long, ss, subs);
    if subs != [] && !skipAuto {
      SubsUnion(d, long, ss, Elems(d.subAuto));
      if d.subAuto != [] {
        ElemsSort(hash(Elems(subs) + AutoSubs(d, long)));
      } else {
        assert Elems(d.subAuto) == {} && ss + {} == ss;
      }
    }
  }

  lemma AllShown(d: Definition, long: bool, gs: set<string>, all: set<string>)
    requires all == ShownGroups(d, long, gs)
    ensures all == {} <==> gs == {}
    ensures ShownGroups(d, long, gs + Elems(d.groupAuto)) == all + AutoGroups(d, long)
  {
    if g :| g in gs { assert ShownGroup(d, long, g) in all; }
    ShownUnion(d, long, gs, Elems(d.groupAuto));
  }

  /** Groups are listed in order where automatic ones may be added, and in the order of `hash` otherwise. */
  ghost predicate InOrderOf(d: Definition, skipAuto: bool, hash: Hash, listing: seq<string>) {
    if d.groupAuto != [] && !skipAuto then InOrder(listing) else listing == hash(Elems(listing))
  }

  /** The groups shown, given those before the automatic ones. */
  lemma GroupsSelected(d: Definition, long: bool, skipAuto: bool, gs: set<string>, groups: seq<string>,
                       subs: seq<string>,
                       hash: Hash)
    requires Lists(hash)
    requires Elems(groups) + (set g | g in TempGroups(d, subs, []) :: BroughtIn(d, long, g)) == ShownGroups(d, long, gs)
    ensures var more := if gs != {} && !skipAuto then gs + Elems(d.groupAuto) else gs;
            var shown := GroupsToShow(d, long, skipAuto, groups, subs, hash);
            && Elems(shown) == ShownGroups(d, long, more) && |shown| == |ShownGroups(d, long, more)|
            && InOrderOf(d, skipAuto, hash, shown)
  {
    var all := Elems(groups) + (set g | g in TempGroups(d, subs, []) :: BroughtIn(d, long, g));
    AllShown(d, long, gs, all);
    NoneListed(hash, all);
    if gs != {} && !skipAuto {
      if d.groupAuto != [] {
        ElemsSort(hash(all + AutoGroups(d, long)));
        SortSorts(hash(all + AutoGroups(d, long)));
      } else {
        assert Elems(d.groupAuto) == {} && gs + {} == gs;
      }
    }
  }

  lemma NoneListed(hash: Hash, s: set<string>)
    requires Lists(hash)
    ensures hash(s) == [] <==> s == {}
  {
    assert |hash(s)| == |s|;
  }

  // ---------------------------------------------------------------- the round trip

  /** The text parts are printed as, whatever the definition selects automatically. */
  lemma SelectedText(d: Definition, p: Parts, req: seq<string>, groups: seq<string>, subs: seq<string>, long: bool,
                     skipAuto: bool, hash: Hash) returns (shown: seq<string>)
    requires WellFormed(d) && Named(d, p) && Closed(d, Selected(d, skipAuto, p)) && Lists(hash)
    requires Listed(d, long, p, req, groups, subs)
    ensures Shows(d, long, Selected(d, skipAuto, p).groups, shown) && InOrderOf(d, skipAuto, hash, shown)
    ensures var now := SubsToShow(d, long, skipAuto, subs, hash);
            && Elems(now) == ShownSubs(d, long, Selected(d, skipAuto, p).subgroups) && Once(now)
            && Print(d, p.lvl, req, groups, subs, long, skipAuto, hash)
               == Valid(LevelName(d, long, Raise(d, p).lvl).value + Tail(d, long, req, shown, now, hash))
    ensures LevelName(d, long, Raise(d, p).lvl).Valid?
  {
    var now := SubsToShow(d, long, skipAuto, subs, hash);
    shown := SelectedGroups(d, p, groups, subs, long, skipAuto, hash);
    SubsSelected(d, long, skipAuto, p.subgroups, subs, hash);
    PrintedLevelOf(d, long, p, req);
    PrintIs(d, p.lvl, req, groups, subs, long, skipAuto, hash);
  }

  lemma SelectedGroups(d: Definition, p: Parts, groups: seq<string>, subs: seq<string>, long: bool, skipAuto: bool,
                       hash: Hash) returns (shown: seq<string>)
    requires WellFormed(d) && Named(d, p) && Closed(d, Selected(d, skipAuto, p)) && Lists(hash)
    requires Elems(groups) == ShownGroups(d, long, p.groups) && Elems(subs) == ShownSubs(d, long, p.subgroups)
    ensures shown == GroupsToShow(d, long, skipAuto, groups, SubsToShow(d, long, skipAuto, subs, hash), hash)
    ensures Shows(d, long, Selected(d, skipAuto, p).groups, shown) && InOrderOf(d, skipAuto, hash, shown)
  {
    var now := SubsToShow(d, long, skipAuto, subs, hash);
    shown := GroupsToShow(d, long, skipAuto, groups, now, hash);
    SubsSelected(d, long, skipAuto, p.subgroups, subs, hash);
    var base := p.(subgroups := ShownWith(d, skipAuto, p.subgroups));
    assert Fits(d, base);
    var gs := GroupsShown(d, long, base, groups, now);
    GroupsSelected(d, long, skipAuto, gs, groups, now, hash);
  }

  /** Printing words what it selects, in the format asked for. */
  lemma SelectionIsWorded(d: Definition, p: Parts, req: seq<string>, groups: seq<string>, subs: seq<string>,
                          long: bool, skipAuto: bool, hash: Hash) returns (listing: seq<string>)
    requires WellFormed(d) && Named(d, p) && Closed(d, Selected(d, skipAuto, p)) && Lists(hash)
    requires Listed(d, long, p, req, groups, subs)
    ensures InOrderOf(d, skipAuto, hash, listing)
    ensures var r := Print(d, p.lvl, req, groups, subs, long, skipAuto, hash);
            r.Valid? && Worded(d, long, Raise(d, Selected(d, skipAuto, p)), listing, r.value)
  {
    listing := SelectedText(d, p, req, groups, subs, long, skipAuto, hash);
    var q := Raise(d, Selected(d, skipAuto, p));
    RaisedLevelExists(d, p);
    TailWorded(d, long, q, req, listing, SubsToShow(d, long, skipAuto, subs, hash), hash);
  }

  /** Parsing a printed marking of any definition returns exactly what printing selected, level raised, if and only if
      those groups are printable. */
  lemma ParseInvertsSelection(d: Definition, p: Parts, req: seq<string>, groups: seq<string>, subs: seq<string>,
                              long: bool, skipAuto: bool, hash: Hash)
    requires WellFormed(d) && Named(d, p) && Closed(d, Selected(d, skipAuto, p)) && Lists(hash)
    requires Listed(d, long, p, req, groups, subs)
    ensures Print(d, p.lvl, req, groups, subs, long, skipAuto, hash).Valid?
    ensures var q := Selected(d, skipAuto, p);
            var text := Print(d, p.lvl, req, groups, subs, long, skipAuto, hash).value;
            Parse(d, text, STANDARD) == Valid(Raise(d, q)) <==> Printable(d, q.groups)
  {
    var q, n := Selected(d, skipAuto, p), Raise(d, p).lvl;
    var shown := SelectedText(d, p, req, groups, subs, long, skipAuto, hash);
    var now := SubsToShow(d, long, skipAuto, subs, hash);
    PrintedTail(d, long, q, req, shown, now, hash);
    PrintedLevelOf(d, long, p, req);
    var m := GroupMeaning(d, long, shown);
    ParseOfParts(d, LevelName(d, long, n).value, n, Tail(d, long, req, shown, now, hash),
                 Found(p.req + m.req, m.groups, m.subgroups + q.subgroups, m.unknown, m.bad), STANDARD);
    if Printable(d, q.groups) {
      PrintableComesBack(d, long, q, shown);
    } else {
      LostIsMissing(d, long, q, shown);
    }
  }

  /** The parts of a marking survive exactly when there was nothing to select and the level needs no raising. */
  lemma SelectionKeeps(d: Definition, p: Parts, req: seq<string>, groups: seq<string>, subs: seq<string>, long: bool,
                       skipAuto: bool, hash: Hash)
    requires WellFormed(d) && Closed(d, p) && Closed(d, Selected(d, skipAuto, p)) && Lists(hash)
    requires Listed(d, long, p, req, groups, subs) && Printable(d, Selected(d, skipAuto, p).groups)
    ensures Print(d, p.lvl, req, groups, subs, long, skipAuto, hash).Valid?
    ensures var text := Print(d, p.lvl, req, groups, subs, long, skipAuto, hash).value;
            Parse(d, text, STANDARD) == Valid(p) <==> Selected(d, skipAuto, p) == p && Raise(d, p) == p
  {
    ParseInvertsSelection(d, p, req, groups, subs, long, skipAuto, hash);
  }
}
