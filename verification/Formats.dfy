/** The wording of a printed marking, read off the tables of the definition: which name every item has in the long and
    in the short format, in what order, and behind which slashes. */
module Formats {
  import opened Wrappers
  import opened Strings
  import opened Marking
  import opened MarkingText
  import opened MarkingRoundTrip
  import opened Normalization

  // ---------------------------------------------------------------- what a text of a format is

  /** The long name in the long format, and the short one in the short format. An item that has no long name keeps its
      own. */
  function NameOf(stl: map<string, string>, long: bool, item: string): string {
    if long && item in stl then stl[item] else item
  }

  function Names(stl: map<string, string>, long: bool, items: set<string>): set<string> {
    set s | s in items :: NameOf(stl, long, s)
  }

  /** `names` are the names of the items, each once. */
  ghost predicate Spelled(stl: map<string, string>, long: bool, items: set<string>, names: seq<string>) {
    Elems(names) == Names(stl, long, items) && Once(names)
  }

  /** A required item that is shown with the groups. */
  predicate WithGroups(d: Definition, r: string) {
    r in d.params && d.params[r].requiredGroup
  }

  /** The display name of a group that stands alone, if it has one of its own. */
  function DisplayName(d: Definition, g: string): Option<string> {
    if g in d.params && d.params[g].solitary.Some? && d.params[g].solitary.value != g then d.params[g].solitary
    else None
  }

  /** The alias stands for exactly the groups listed, which happen to be listed in order. */
  ghost predicate StandsFor(d: Definition, alias: string, listing: seq<string>) {
    && alias in d.groupAliases && |d.groupAliases[alias]| > 1
    && InOrder(listing) && multiset(d.groupAliases[alias]) == multiset(listing)
  }

  /** The first alias, in the configured order, that stands for the groups listed. */
  ghost predicate FirstAlias(d: Definition, alias: string, listing: seq<string>) {
    exists k :: 0 <= k < |d.groupAliasOrder| && d.groupAliasOrder[k] == alias && StandsFor(d, alias, listing)
      && forall j :: 0 <= j < k ==> !StandsFor(d, d.groupAliasOrder[j], listing)
  }

  ghost predicate AnyAlias(d: Definition, listing: seq<string>) {
    exists a :: a in d.groupAliasOrder && StandsFor(d, a, listing)
  }

  /** The group marking: a display name for a single group that has one, in the short format an alias for several, and
      otherwise the names in order. */
  ghost predicate Marks(d: Definition, long: bool, listing: seq<string>, mark: string) {
    if |listing| == 1 then
      match DisplayName(d, listing[0])
      case Some(name) => mark == name
      case None => mark == "REL TO " + listing[0]
    else if !long && AnyAlias(d, listing) then
      exists a :: FirstAlias(d, a, listing) && mark == "REL TO " + a
    else
      exists names :: multiset(names) == multiset(listing) && InOrder(names) && mark == "REL TO " + Join(", ", names)
  }

  /** The text of the parts `p` in a format: the level, the required items, those shown with the groups, the group
      marking, and the subgroups. `listing` is the list of group names the marking was made from. */
  ghost predicate Worded(d: Definition, long: bool, p: Parts, listing: seq<string>, text: string) {
    exists plain, inGroup, mark, subs :: WordedBy(d, long, p, listing, text, plain, inGroup, mark, subs)
  }

  ghost predicate WordedBy(d: Definition, long: bool, p: Parts, listing: seq<string>, text: string,
                           plain: seq<string>, inGroup: seq<string>, mark: string, subs: seq<string>)
  {
    && p.lvl in d.levelText && d.levelText[p.lvl] in d.levelStl
    && Spelled(d.reqStl, long, (set r | r in p.req && !WithGroups(d, r)), plain)
    && Spelled(d.reqStl, long, (set r | r in p.req && WithGroups(d, r)), inGroup) && InOrder(inGroup)
    && Spelled(d.groupStl, long, p.groups, listing) && (listing != [] ==> Marks(d, long, listing, mark))
    && Spelled(d.subStl, long, p.subgroups, subs) && InOrder(subs)
    && text == (if long then d.levelStl[d.levelText[p.lvl]] else d.levelText[p.lvl])
         + (Section("//", plain) + Section("//", inGroup)
            + (if listing == [] then "" else (if inGroup == [] then "//" else "/") + mark)
            + Section(if inGroup == [] && listing == [] then "//" else "/", subs))
  }

  /** The text of the parts in a format, whatever the order of the groups. */
  ghost predicate InFormat(d: Definition, long: bool, p: Parts, text: string) {
    exists listing :: Worded(d, long, p, listing, text)
  }

  // ---------------------------------------------------------------- required items

  lemma ItemsShown(d: Definition, long: bool, rs: set<string>)
    ensures ShownReqs(d, long, rs) == Names(d.reqStl, long, rs)
    ensures ShownGroups(d, long, rs) == Names(d.groupStl, long, rs)
    ensures ShownSubs(d, long, rs) == Names(d.subStl, long, rs)
  {
    assert ShownReqs(d, long, rs) == Names(d.reqStl, long, rs);
    assert ShownGroups(d, long, rs) == Names(d.groupStl, long, rs);
    assert ShownSubs(d, long, rs) == Names(d.subStl, long, rs);
  }

  lemma NameTells(d: Definition, long: bool, rs: set<string>, req: seq<string>, r: string)
    requires Bilingual(d.reqStl, d.reqLts, d.params) && rs <= d.reqStl.Keys && r in rs
    requires Elems(req) == Names(d.reqStl, long, rs)
    ensures var n := NameOf(d.reqStl, long, r); n in req && (WithGroups(d, r) <==> ParamsOf(d, n).requiredGroup)
  {
    assert NameOf(d.reqStl, long, r) in Elems(req);
  }

  /** The items shown with the groups are told apart by their names as well. */
  lemma NamesSplit(d: Definition, long: bool, rs: set<string>, req: seq<string>, inGroup: seq<string>)
    requires Bilingual(d.reqStl, d.reqLts, d.params) && rs <= d.reqStl.Keys
    requires Elems(req) == Names(d.reqStl, long, rs) && inGroup == RequiredGroupItems(d, req)
    ensures Elems(inGroup) == Names(d.reqStl, long, set r | r in rs && WithGroups(d, r))
    ensures Elems(req) - Elems(inGroup) == Names(d.reqStl, long, set r | r in rs && !WithGroups(d, r))
  {
    RequiredGroupItemsMembers(d, req);
    var with, without := (set r | r in rs && WithGroups(d, r)), (set r | r in rs && !WithGroups(d, r));
    forall r | r in rs
      ensures NameOf(d.reqStl, long, r) in req
      ensures WithGroups(d, r) <==> NameOf(d.reqStl, long, r) in inGroup
    {
      NameTells(d, long, rs, req, r);
    }
    forall n | n in req ensures exists r :: r in rs && n == NameOf(d.reqStl, long, r) {
      assert n in Elems(req);
    }
    forall n ensures n in Elems(inGroup) <==> n in Names(d.reqStl, long, with) {
    }
    forall n ensures n in Elems(req) - Elems(inGroup) <==> n in Names(d.reqStl, long, without) {
    }
  }

  ghost predicate Distinct(s: seq<string>) {
    forall i, j :: 0 <= i < j < |s| ==> s[i] != s[j]
  }

  lemma {:induction false} GroupItemsOnce(d: Definition, req: seq<string>)
    requires Distinct(req)
    ensures Distinct(RequiredGroupItems(d, req))
  {
    if req != [] {
      var rest := RequiredGroupItems(d, req[1..]);
      GroupItemsOnce(d, req[1..]);
      RequiredGroupItemsMembers(d, req[1..]);
      assert req[0] !in req[1..];
      assert Distinct([req[0]] + rest);
      assert [] + rest == rest;
    }
  }

  lemma {:induction false} OnceIsDistinct(s: seq<string>)
    ensures |Elems(s)| <= |s|
    ensures Once(s) <==> Distinct(s)
  {
    if s == [] {
      assert Elems(s) == {};
    } else {
      var init, x := s[..|s| - 1], s[|s| - 1];
      OnceIsDistinct(init);
      assert s == init + [x];
      assert Elems(s) == Elems(init) + {x};
      if x in init {
        assert Elems(s) == Elems(init);
        var i :| 0 <= i < |init| && init[i] == x;
        assert s[i] == s[|s| - 1];
      }
    }
  }

  /** A list in order holds the same names, each once. */
  lemma SortedOnce(s: seq<string>)
    requires Once(s)
    ensures InOrder(Sort(s)) && Elems(Sort(s)) == Elems(s) && Once(Sort(s)) && multiset(Sort(s)) == multiset(s)
    ensures Sort(s) == [] <==> s == []
  {
    SortSorts(s);
    SortMembers(s);
    ElemsSort(s);
  }

  lemma RequiredWorded(d: Definition, long: bool, rs: set<string>, req: seq<string>, hash: Hash)
    returns (plain: seq<string>, inGroup: seq<string>)
    requires Bilingual(d.reqStl, d.reqLts, d.params) && rs <= d.reqStl.Keys && Lists(hash)
    requires Elems(req) == ShownReqs(d, long, rs) && Once(req)
    ensures Spelled(d.reqStl, long, (set r | r in rs && !WithGroups(d, r)), plain)
    ensures Spelled(d.reqStl, long, (set r | r in rs && WithGroups(d, r)), inGroup) && InOrder(inGroup)
    ensures ReqSection(d, req, hash) == Section("//", plain) + Section("//", inGroup)
    ensures inGroup == [] <==> RequiredGroupItems(d, req) == []
  {
    var items := RequiredGroupItems(d, req);
    ItemsShown(d, long, rs);
    NamesSplit(d, long, rs, req, items);
    OnceIsDistinct(req);
    GroupItemsOnce(d, req);
    OnceIsDistinct(items);
    SortedOnce(items);
    plain, inGroup := hash(Elems(req) - Elems(items)), Sort(items);
  }

  // ---------------------------------------------------------------- groups

  lemma SortIsListing(d: Definition, alias: string, listing: seq<string>)
    requires alias in d.groupAliases
    ensures |d.groupAliases[alias]| > 1 && Sort(d.groupAliases[alias]) == listing <==> StandsFor(d, alias, listing)
  {
    var values := d.groupAliases[alias];
    SortSorts(values);
    SortMembers(values);
    if StandsFor(d, alias, listing) {
      OneOrder(Sort(values), listing);
    }
  }

  /** What the aliases tried in order make of a list: the first that stands for it, or the list itself. */
  lemma {:induction false} FoldIs(d: Definition, order: seq<string>, listing: seq<string>)
    requires (forall a :: a in order ==> a in d.groupAliases) && |listing| > 1
    ensures (forall a :: a in order ==> !StandsFor(d, a, listing)) ==> FoldAlias(d, order, listing) == listing
    ensures forall k :: 0 <= k < |order| && StandsFor(d, order[k], listing)
              && (forall j :: 0 <= j < k ==> !StandsFor(d, order[j], listing))
              ==> FoldAlias(d, order, listing) == [order[k]]
  {
    if order != [] {
      assert order == [order[0]] + order[1..];
      SortIsListing(d, order[0], listing);
      if StandsFor(d, order[0], listing) {
        FoldAliasStops(d, order[1..], order[0]);
      } else {
        FoldIs(d, order[1..], listing);
        forall k | 0 <= k < |order| && StandsFor(d, order[k], listing)
          && (forall j :: 0 <= j < k ==> !StandsFor(d, order[j], listing))
          ensures FoldAlias(d, order, listing) == [order[k]]
        {
          assert order[1..][k - 1] == order[k];
          forall j | 0 <= j < k - 1 ensures !StandsFor(d, order[1..][j], listing) {
            assert order[1..][j] == order[j + 1];
          }
        }
      }
    }
  }

  lemma {:induction false} SomeFirst(d: Definition, order: seq<string>, listing: seq<string>) returns (k: nat)
    requires exists a :: a in order && StandsFor(d, a, listing)
    ensures k < |order| && StandsFor(d, order[k], listing)
    ensures forall j :: 0 <= j < k ==> !StandsFor(d, order[j], listing)
  {
    if StandsFor(d, order[0], listing) {
      k := 0;
    } else {
      assert order == [order[0]] + order[1..];
      var rest := SomeFirst(d, order[1..], listing);
      k := rest + 1;
      forall j | 0 <= j < k ensures !StandsFor(d, order[j], listing) {
        assert j > 0 ==> order[j] == order[1..][j - 1];
      }
    }
  }

  lemma GroupsWorded(d: Definition, long: bool, listing: seq<string>)
    requires (forall a :: a in d.groupAliasOrder ==> a in d.groupAliases) && listing != []
    ensures Marks(d, long, listing, GroupText(d, long, listing))
  {
    if |listing| > 1 {
      SortSorts(listing);
      SortMembers(listing);
      FoldIs(d, d.groupAliasOrder, listing);
      if !long && AnyAlias(d, listing) {
        var k := SomeFirst(d, d.groupAliasOrder, listing);
        var a := d.groupAliasOrder[k];
        assert FirstAlias(d, a, listing);
        assert Sort([a]) == [a];
        assert GroupText(d, long, listing) == "REL TO " + a;
      } else {
        assert GroupText(d, long, listing) == "REL TO " + Join(", ", Sort(listing));
      }
    }
  }

  // ---------------------------------------------------------------- the whole text

  lemma LevelWorded(d: Definition, long: bool, n: nat)
    requires WellFormedLevels(d) && LevelName(d, long, n).Valid?
    ensures n in d.levelText && d.levelText[n] in d.levelStl
    ensures LevelName(d, long, n).value == if long then d.levelStl[d.levelText[n]] else d.levelText[n]
  {
  }

  lemma TailIs(d: Definition, long: bool, req: seq<string>, shown: seq<string>, subs: seq<string>, hash: Hash,
               plain: seq<string>, inGroup: seq<string>, mark: string)
    requires ReqSection(d, req, hash) == Section("//", plain) + Section("//", inGroup)
    requires inGroup == [] <==> RequiredGroupItems(d, req) == []
    requires shown != [] ==> mark == GroupText(d, long, shown)
    requires Sort(subs) == [] <==> subs == []
    ensures Tail(d, long, req, shown, subs, hash)
            == Section("//", plain) + Section("//", inGroup)
               + (if shown == [] then "" else (if inGroup == [] then "//" else "/") + mark)
               + Section(if inGroup == [] && shown == [] then "//" else "/", Sort(subs))
  {
  }

  /** The sections behind a level word their parts. */
  lemma TailWorded(d: Definition, long: bool, p: Parts, req: seq<string>, shown: seq<string>, subs: seq<string>,
                   hash: Hash)
    requires WellFormed(d) && Named(d, p) && Lists(hash)
    requires Elems(req) == ShownReqs(d, long, p.req) && Once(req)
    requires Elems(subs) == ShownSubs(d, long, p.subgroups) && Once(subs)
    requires Shows(d, long, p.groups, shown)
    requires LevelName(d, long, p.lvl).Valid?
    ensures Worded(d, long, p, shown, LevelName(d, long, p.lvl).value + Tail(d, long, req, shown, subs, hash))
  {
    var plain, inGroup := RequiredWorded(d, long, p.req, req, hash);
    ItemsShown(d, long, p.groups);
    ItemsShown(d, long, p.subgroups);
    SortedOnce(subs);
    var mark := "";
    if shown != [] {
      GroupsWorded(d, long, shown);
      mark := GroupText(d, long, shown);
    }
    var head, tail := LevelName(d, long, p.lvl).value, Tail(d, long, req, shown, subs, hash);
    TailIs(d, long, req, shown, subs, hash, plain, inGroup, mark);
    LevelWorded(d, long, p.lvl);
    assert WordedBy(d, long, p, shown, head + tail, plain, inGroup, mark, Sort(subs));
  }

  /** A printed marking is worded in the format asked for, the group marking made from the groups in the order of
      `hash`. */
  lemma PrintedIsWorded(d: Definition, p: Parts, l: Lists4, long: bool, skipAuto: bool, hash: Hash)
    returns (gs: set<string>)
    requires WellFormed(d) && Named(d, p) && (NoAutoSelect(d) || skipAuto) && Lists(hash) && ListsOf(d, long, p, l)
    ensures p.groups <= gs <= Filled(d, p).groups && (Fits(d, p) ==> gs == Filled(d, p).groups)
    ensures var r := Print(d, l.lvl, l.req, l.groups, l.subgroups, long, skipAuto, hash);
            r.Valid? && Worded(d, long, Raise(d, p).(groups := gs), hash(Names(d.groupStl, long, gs)), r.value)
  {
    var shown: seq<string>;
    gs, shown := PrintedText(d, p, l.req, l.groups, l.subgroups, long, skipAuto, hash);
    NamedWith(d, p, gs);
    RaisedLevelExists(d, p);
    TailWorded(d, long, Raise(d, p).(groups := gs), l.req, shown, l.subgroups, hash);
  }
}
