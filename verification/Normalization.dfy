/** Normalizing a marking: the parts the parser returns are closed under the rules of the
    definition, and printing closed parts is undone by parsing. */
module Normalization {
  import opened Wrappers
  import opened Strings
  import opened Marking
  import opened MarkingText
  import opened MarkingRoundTrip

  // ---------------------------------------------------------------- closed parts

  /** Parts that have names. */
  ghost predicate Named(d: Definition, p: Parts) {
    && p.lvl in d.levelText
    && p.req <= d.reqStl.Keys
    && p.subgroups <= d.subStl.Keys
    && (forall g :: g in p.groups ==> Token(d, g) && (g in d.groupStl || d.dynamicGroups))
  }

  /** They hold the groups their subgroups require, and no others when a subgroup is limited. */
  ghost predicate Closed(d: Definition, p: Parts) {
    Named(d, p) && RequiredGroups(d, p.subgroups) <= p.groups && WithinLimits(d, p.subgroups, p.groups)
  }

  /** The highest level a set of required items asks for. */
  ghost function Floor(d: Definition, req: set<string>): (n: nat)
    ensures forall r :: r in req ==> ParamsOf(d, r).requireLvl <= n
    ensures n == 0 || exists r :: r in req && ParamsOf(d, r).requireLvl == n
  {
    if req == {} then 0
    else
      var r :| r in req;
      Max(ParamsOf(d, r).requireLvl, Floor(d, req - {r}))
  }

  ghost function Raise(d: Definition, p: Parts): Parts {
    p.(lvl := Max(p.lvl, Floor(d, p.req)))
  }

  ghost predicate NoLimits(d: Definition) {
    forall x :: x in d.params ==> d.params[x].limitedTo.None?
  }

  /** Printing adds the groups the subgroups require. */
  function Filled(d: Definition, p: Parts): Parts {
    p.(groups := p.groups + RequiredGroups(d, p.subgroups))
  }

  /** The groups, with those the subgroups require, are within the limits of the subgroups. */
  predicate Fits(d: Definition, p: Parts) {
    WithinLimits(d, p.subgroups, Filled(d, p).groups)
  }

  /** The parts the printer can be trusted with: they only lack the groups printing adds. */
  ghost predicate Fillable(d: Definition, p: Parts) {
    Closed(d, Filled(d, p))
  }

  lemma NoLimitsFit(d: Definition, p: Parts)
    requires NoLimits(d)
    ensures Fits(d, p)
  {
  }

  lemma FitsIsFillable(d: Definition, p: Parts)
    requires Consistent(d) && Named(d, p)
    ensures Fits(d, p) <==> Fillable(d, p)
  {
    RequiredCloses(d, p.subgroups);
  }

  lemma ClosedIsFilled(d: Definition, p: Parts)
    requires Closed(d, p)
    ensures Filled(d, p) == p && Fillable(d, p)
  {
    assert p.groups + RequiredGroups(d, p.subgroups) == p.groups;
  }

  // ---------------------------------------------------------------- parsing closes

  lemma TokenOfMarking(d: Definition, p: string, t: string)
    requires '/' !in p && IsUpper(p) && t in Tokens(p)
    ensures IsUpper(t) && '/' !in t && ',' !in t && Trimmed(t)
  {
    var piece :| piece in Split(Clean(p), ',') && Strip(piece) == t;
    CleanFacts(p);
    SplitPiece(Clean(p), ',', piece);
    StripFacts(piece);
    UpperChars(p, t);
  }

  /** Translations and aliases lead to configured items, and subgroups require configured groups. */
  ghost predicate Consistent(d: Definition) {
    && LeadsTo(d.reqStl, d.reqLts, d.reqAliases)
    && LeadsTo(d.groupStl, d.groupLts, d.groupAliases)
    && LeadsTo(d.subStl, d.subLts, d.subAliases)
    && (forall s :: s in d.subStl && ParamsOf(d, s).requireGroup.Some? ==>
         ParamsOf(d, s).requireGroup.value in d.groupStl)
  }

  ghost predicate LeadsTo(stl: map<string, string>, lts: map<string, string>, aliases: map<string, seq<string>>) {
    && (forall n :: n in lts ==> lts[n] in stl)
    && (forall a :: a in aliases ==> forall v :: v in aliases[a] ==> v in stl)
  }

  lemma WellFormedIsConsistent(d: Definition)
    requires WellFormed(d)
    ensures Consistent(d)
  {
    NamesLeadTo(d.reqStl, d.reqLts, d.params, d.reqAliases);
    NamesLeadTo(d.groupStl, d.groupLts, d.params, d.groupAliases);
    NamesLeadTo(d.subStl, d.subLts, d.params, d.subAliases);
  }

  lemma NamesLeadTo(stl: map<string, string>, lts: map<string, string>, params: map<string, Params>,
                    aliases: map<string, seq<string>>)
    requires Bilingual(stl, lts, params) && WellNamedAliases(aliases, stl)
    ensures LeadsTo(stl, lts, aliases)
  {
  }

  lemma ResolveCloses(p: string, lts: map<string, string>, stl: map<string, string>, aliases: map<string, seq<string>>)
    requires LeadsTo(stl, lts, aliases) && Resolve(p, lts, stl, aliases).Some?
    ensures Resolve(p, lts, stl, aliases).value <= stl.Keys
  {
  }

  lemma KnownCloses(d: Definition, ts: set<string>)
    requires LeadsTo(d.groupStl, d.groupLts, d.groupAliases)
    ensures Known(d, ts) <= d.groupStl.Keys
  {
    forall t | t in ts && GroupOf(d, t).Some? ensures GroupOf(d, t).value <= d.groupStl.Keys {
      ResolveCloses(t, d.groupLts, d.groupStl, d.groupAliases);
    }
  }

  ghost predicate FoundCloses(d: Definition, f: Found) {
    && f.req <= d.reqStl.Keys
    && f.groups <= d.groupStl.Keys
    && f.subgroups <= d.subStl.Keys
    && (forall t :: t in f.unknown ==> DynamicToken(d, t))
  }

  lemma UnknownCloses(d: Definition, p: string)
    requires '/' !in p && IsUpper(p)
    ensures forall t :: t in Unknown(d, Tokens(p)) ==> DynamicToken(d, t)
  {
    forall t | t in Unknown(d, Tokens(p)) ensures DynamicToken(d, t) {
      TokenOfMarking(d, p, t);
    }
  }

  lemma MeaningCloses(d: Definition, p: string)
    requires Consistent(d) && '/' !in p && IsUpper(p)
    ensures FoundCloses(d, Meaning(d, p))
  {
    if ReqOf(d, p).Some? {
      ResolveCloses(p, d.reqLts, d.reqStl, d.reqAliases);
    } else if StartsWith(p, "REL ") {
      KnownCloses(d, Tokens(p));
      UnknownCloses(d, p);
    } else if SubOf(d, p).Some? {
      ResolveCloses(p, d.subLts, d.subStl, d.subAliases);
    }
  }

  lemma GatherCloses(d: Definition, ps: set<string>)
    requires Consistent(d) && forall p :: p in ps ==> '/' !in p && IsUpper(p)
    ensures FoundCloses(d, Gather(d, ps))
  {
    forall p | p in ps ensures FoundCloses(d, Meaning(d, p)) {
      MeaningCloses(d, p);
    }
  }

  lemma PiecesOfText(text: string)
    ensures forall p :: p in Pieces(Partition(Upper(text)).1) ==> '/' !in p && IsUpper(p)
  {
    var remain := Partition(Upper(text)).1;
    UpperFixed(text);
    PartitionChars(Upper(text));
    forall p | p in Pieces(remain) ensures '/' !in p && IsUpper(p) {
      SplitPiece(remain, '/', p);
      UpperChars(Upper(text), p);
    }
  }

  lemma LevelIndexCloses(d: Definition, t: string)
    requires WellFormedLevels(d) && LevelIndex(d, t).Valid?
    ensures LevelIndex(d, t).value in d.levelText
  {
  }

  lemma RequiredCloses(d: Definition, subgroups: set<string>)
    requires Consistent(d) && subgroups <= d.subStl.Keys
    ensures RequiredGroups(d, subgroups) <= d.groupStl.Keys
  {
  }

  lemma CloseCloses(d: Definition, lvl: nat, f: Found, o: Options)
    requires Consistent(d) && FoundCloses(d, f) && lvl in d.levelText
    requires NoAutoSelect(d) || !o.autoSelect
    requires Close(d, lvl, f, o).Valid?
    ensures Closed(d, Close(d, lvl, f, o).value)
  {
    RequiredCloses(d, f.subgroups);
    assert Elems([]) == {};
    var p := Close(d, lvl, f, o).value;
    assert p.subgroups == f.subgroups;
  }

  /** The parser returns closed parts. */
  lemma ParseCloses(d: Definition, text: string, o: Options)
    requires WellFormed(d) && (NoAutoSelect(d) || !o.autoSelect)
    requires Parse(d, text, o).Valid?
    ensures Closed(d, Parse(d, text, o).value)
  {
    var (lvl, remain) := Partition(Upper(text));
    LevelIndexCloses(d, lvl);
    PiecesOfText(text);
    WellFormedIsConsistent(d);
    GatherCloses(d, Pieces(remain));
    CloseCloses(d, LevelIndex(d, lvl).value, Gather(d, Pieces(remain)), o);
  }

  // ---------------------------------------------------------------- printing closed parts

  /** `req`, `groups` and `subs` list the parts by the names of the given format, each once. */
  ghost predicate Listed(d: Definition, long: bool, p: Parts, req: seq<string>, groups: seq<string>,
                         subs: seq<string>)
  {
    && Elems(req) == ShownReqs(d, long, p.req)
    && Elems(groups) == ShownGroups(d, long, p.groups)
    && Elems(subs) == ShownSubs(d, long, p.subgroups)
    && Once(req) && Once(groups) && Once(subs)
  }

  lemma {:induction false} MaxRequiredFacts(d: Definition, req: seq<string>)
    ensures forall r :: r in req ==> ParamsOf(d, r).requireLvl <= MaxRequired(d, req)
    ensures MaxRequired(d, req) == 0 || exists r :: r in req && ParamsOf(d, r).requireLvl == MaxRequired(d, req)
  {
    if req != [] {
      MaxRequiredFacts(d, req[1..]);
      assert req == [req[0]] + req[1..];
      if MaxRequired(d, req) != 0 {
        if ParamsOf(d, req[0]).requireLvl > MaxRequired(d, req[1..]) {
          assert req[0] in req;
        } else {
          var r :| r in req[1..] && ParamsOf(d, r).requireLvl == MaxRequired(d, req[1..]);
          assert r in req;
        }
      }
    }
  }

  lemma ShownReqParams(d: Definition, long: bool, r: string)
    requires Bilingual(d.reqStl, d.reqLts, d.params) && r in d.reqStl
    ensures ParamsOf(d, ShownReq(d, long, r)) == ParamsOf(d, r)
  {
  }

  /** The level raise is computed on shown names and means the same as on short names. */
  lemma MaxRequiredIsFloor(d: Definition, long: bool, rs: set<string>, req: seq<string>)
    requires Bilingual(d.reqStl, d.reqLts, d.params) && rs <= d.reqStl.Keys
    requires Elems(req) == ShownReqs(d, long, rs)
    ensures MaxRequired(d, req) == Floor(d, rs)
  {
    MaxRequiredFacts(d, req);
    var m, f := MaxRequired(d, req), Floor(d, rs);
    if f != 0 {
      var r :| r in rs && ParamsOf(d, r).requireLvl == f;
      ShownReqParams(d, long, r);
      assert ShownReq(d, long, r) in Elems(req);
    }
    if m != 0 {
      var n :| n in req && ParamsOf(d, n).requireLvl == m;
      assert n in Elems(req);
      var r :| r in rs && n == ShownReq(d, long, r);
      ShownReqParams(d, long, r);
    }
  }

  lemma {:induction false} TempGroupsFrom(d: Definition, subs: seq<string>, acc: seq<string>)
    ensures forall g :: g in TempGroups(d, subs, acc) ==>
      g in acc || exists s :: s in subs && ParamsOf(d, s).requireGroup == Some(g)
  {
    if subs != [] {
      var p := ParamsOf(d, subs[0]);
      var added := if p.requireGroup.Some? then acc + [p.requireGroup.value] else acc;
      var kept := match p.limitedTo
                  case None => added
                  case Some(only) => if only in added then [only] else [];
      TempGroupsFrom(d, subs[1..], kept);
      forall g | g in TempGroups(d, subs, acc)
        ensures g in acc || exists s :: s in subs && ParamsOf(d, s).requireGroup == Some(g)
      {
        if g in kept {
          assert g in added;
          assert subs[0] in subs;
        } else {
          var s :| s in subs[1..] && ParamsOf(d, s).requireGroup == Some(g);
          assert s in subs;
        }
      }
    }
  }

  lemma ShownSubParams(d: Definition, long: bool, s: string)
    requires Bilingual(d.subStl, d.subLts, d.params) && s in d.subStl
    ensures ParamsOf(d, ShownSub(d, long, s)) == ParamsOf(d, s)
  {
  }

  lemma BroughtInShown(d: Definition, long: bool, g: string)
    requires Bilingual(d.groupStl, d.groupLts, d.params) && g in d.groupStl
    ensures BroughtIn(d, long, g) == ShownGroup(d, long, g)
  {
  }

  lemma RequiredByShown(d: Definition, long: bool, ss: set<string>, subs: seq<string>, n: string, g: string)
    requires Bilingual(d.subStl, d.subLts, d.params) && ss <= d.subStl.Keys
    requires Elems(subs) == ShownSubs(d, long, ss)
    requires n in subs && ParamsOf(d, n).requireGroup == Some(g)
    ensures g in RequiredGroups(d, ss)
  {
    assert n in Elems(subs);
    var s :| s in ss && n == ShownSub(d, long, s);
    ShownSubParams(d, long, s);
  }

  /** Restarting the list at a limited subgroup loses nothing when all groups in play, `gs`, are within the limits. */
  lemma {:induction false} TempGroupsAll(d: Definition, subs: seq<string>, acc: seq<string>, gs: set<string>)
    requires forall g :: g in acc ==> g in gs
    requires forall s :: s in subs && ParamsOf(d, s).requireGroup.Some? ==> ParamsOf(d, s).requireGroup.value in gs
    requires forall s :: s in subs && ParamsOf(d, s).limitedTo.Some? ==> gs <= {ParamsOf(d, s).limitedTo.value}
    ensures forall g :: g in acc ==> g in TempGroups(d, subs, acc)
    ensures forall s :: s in subs && ParamsOf(d, s).requireGroup.Some? ==>
      ParamsOf(d, s).requireGroup.value in TempGroups(d, subs, acc)
  {
    if subs != [] {
      assert subs[0] in subs;
      var p := ParamsOf(d, subs[0]);
      var added := if p.requireGroup.Some? then acc + [p.requireGroup.value] else acc;
      var kept := match p.limitedTo
                  case None => added
                  case Some(only) => if only in added then [only] else [];
      forall g | g in added ensures g in gs && g in kept {}
      TempGroupsAll(d, subs[1..], kept, gs);
    }
  }

  /** Step 4 brings in required groups only... */
  lemma BroughtInRequired(d: Definition, long: bool, p: Parts, subs: seq<string>)
    requires Bilingual(d.subStl, d.subLts, d.params) && Consistent(d) && p.subgroups <= d.subStl.Keys
    requires Elems(subs) == ShownSubs(d, long, p.subgroups)
    ensures Elems(TempGroups(d, subs, [])) <= RequiredGroups(d, p.subgroups) <= d.groupStl.Keys
  {
    TempGroupsFrom(d, subs, []);
    RequiredCloses(d, p.subgroups);
    forall g | g in TempGroups(d, subs, []) ensures g in RequiredGroups(d, p.subgroups) {
      var n :| n in subs && ParamsOf(d, n).requireGroup == Some(g);
      RequiredByShown(d, long, p.subgroups, subs, n, g);
    }
  }

  /** ... and all of them when they are within the limits. */
  lemma RequiredBroughtIn(d: Definition, long: bool, p: Parts, subs: seq<string>)
    requires Bilingual(d.subStl, d.subLts, d.params) && p.subgroups <= d.subStl.Keys && Fits(d, p)
    requires Elems(subs) == ShownSubs(d, long, p.subgroups)
    ensures RequiredGroups(d, p.subgroups) <= Elems(TempGroups(d, subs, []))
  {
    LimitsByName(d, long, p.subgroups, subs);
    TempGroupsAll(d, subs, [], RequiredGroups(d, p.subgroups));
    forall g | g in RequiredGroups(d, p.subgroups) ensures g in TempGroups(d, subs, []) {
      var s :| s in p.subgroups && ParamsOf(d, s).requireGroup == Some(g);
      ShownSubParams(d, long, s);
      assert ShownSub(d, long, s) in Elems(subs);
    }
  }

  lemma LimitsByName(d: Definition, long: bool, ss: set<string>, subs: seq<string>)
    requires Bilingual(d.subStl, d.subLts, d.params) && ss <= d.subStl.Keys && Elems(subs) == ShownSubs(d, long, ss)
    ensures forall n :: n in subs && ParamsOf(d, n).requireGroup.Some? ==>
      ParamsOf(d, n).requireGroup.value in RequiredGroups(d, ss)
    ensures WithinLimits(d, ss, RequiredGroups(d, ss)) ==> forall n :: n in subs && ParamsOf(d, n).limitedTo.Some? ==>
      RequiredGroups(d, ss) <= {ParamsOf(d, n).limitedTo.value}
  {
    forall n | n in subs ensures exists s :: s in ss && ParamsOf(d, s) == ParamsOf(d, n) {
      assert n in Elems(subs);
      var s :| s in ss && n == ShownSub(d, long, s);
      ShownSubParams(d, long, s);
    }
  }

  lemma ShownUnion(d: Definition, long: bool, a: set<string>, b: set<string>)
    ensures ShownGroups(d, long, a + b) == ShownGroups(d, long, a) + ShownGroups(d, long, b)
    ensures a <= b ==> ShownGroups(d, long, a) <= ShownGroups(d, long, b)
  {
  }

  /** Without auto-selection, parts are shown with groups their subgroups require: with all of them when that is
      within the limits. */
  lemma ShownFilled(d: Definition, long: bool, p: Parts, skipAuto: bool, groups: seq<string>, subs: seq<string>,
                    hash: Hash)
    returns (gs: set<string>)
    requires WellFormed(d) && Named(d, p) && (NoAutoSelect(d) || skipAuto) && Lists(hash)
    requires Elems(groups) == ShownGroups(d, long, p.groups)
    requires Elems(subs) == ShownSubs(d, long, p.subgroups)
    ensures p.groups <= gs <= Filled(d, p).groups && (Fits(d, p) ==> gs == Filled(d, p).groups)
    ensures SubsToShow(d, long, skipAuto, subs, hash) == subs
    ensures Shows(d, long, gs, GroupsToShow(d, long, skipAuto, groups, subs, hash))
    ensures GroupsToShow(d, long, skipAuto, groups, subs, hash) == hash(ShownGroups(d, long, gs))
  {
    gs := GroupsShown(d, long, p, groups, subs);
    WellFormedIsConsistent(d);
    RequiredCloses(d, p.subgroups);
    assert Elems(groups) + (set g | g in TempGroups(d, subs, []) :: BroughtIn(d, long, g)) == ShownGroups(d, long, gs);
  }

  lemma GroupsShown(d: Definition, long: bool, p: Parts, groups: seq<string>, subs: seq<string>)
    returns (gs: set<string>)
    requires WellFormed(d) && Named(d, p) && Elems(groups) == ShownGroups(d, long, p.groups)
    requires Elems(subs) == ShownSubs(d, long, p.subgroups)
    ensures p.groups <= gs <= Filled(d, p).groups && (Fits(d, p) ==> gs == Filled(d, p).groups)
    ensures Elems(groups) + (set g | g in TempGroups(d, subs, []) :: BroughtIn(d, long, g)) == ShownGroups(d, long, gs)
  {
    WellFormedIsConsistent(d);
    var temp := Elems(TempGroups(d, subs, []));
    gs := p.groups + temp;
    BroughtInRequired(d, long, p, subs);
    if Fits(d, p) {
      RequiredBroughtIn(d, long, p, subs);
    }
    ShownUnion(d, long, p.groups, temp);
    BroughtInAll(d, long, TempGroups(d, subs, []));
  }

  lemma BroughtInAll(d: Definition, long: bool, temp: seq<string>)
    requires Bilingual(d.groupStl, d.groupLts, d.params) && Elems(temp) <= d.groupStl.Keys
    ensures (set g | g in temp :: BroughtIn(d, long, g)) == ShownGroups(d, long, Elems(temp))
  {
    forall g | g in temp ensures BroughtIn(d, long, g) == ShownGroup(d, long, g) {
      assert g in Elems(temp);
      BroughtInShown(d, long, g);
    }
    forall n | n in ShownGroups(d, long, Elems(temp)) ensures n in set g | g in temp :: BroughtIn(d, long, g) {
      var g :| g in Elems(temp) && n == ShownGroup(d, long, g);
    }
  }

  lemma PrintedLevel(d: Definition, long: bool, n: nat)
    requires WellFormedLevels(d) && n in d.levelText
    ensures LevelName(d, long, n).Valid?
    ensures var t := LevelName(d, long, n).value;
            '/' !in t && IsUpper(t) && LevelIndex(d, t) == Valid(n)
  {
  }

  lemma ShownPieces(d: Definition, long: bool, p: Parts, req: seq<string>, subs: seq<string>)
    requires WellFormed(d) && Named(d, p)
    requires Elems(req) == ShownReqs(d, long, p.req) && Elems(subs) == ShownSubs(d, long, p.subgroups)
    ensures forall r :: r in req ==> Piece(r)
    ensures forall s :: s in subs ==> Piece(s)
  {
    ShownReqPieces(d, long, p.req, req);
    ShownSubPieces(d, long, p.subgroups, subs);
  }

  lemma ShownReqPieces(d: Definition, long: bool, rs: set<string>, req: seq<string>)
    requires Bilingual(d.reqStl, d.reqLts, d.params) && rs <= d.reqStl.Keys && Elems(req) == ShownReqs(d, long, rs)
    ensures forall r :: r in req ==> Piece(r)
  {
    forall n | n in req ensures Piece(n) {
      assert n in Elems(req);
      var r :| r in rs && n == ShownReq(d, long, r);
    }
  }

  lemma ShownSubPieces(d: Definition, long: bool, ss: set<string>, subs: seq<string>)
    requires Bilingual(d.subStl, d.subLts, d.params) && ss <= d.subStl.Keys && Elems(subs) == ShownSubs(d, long, ss)
    ensures forall s :: s in subs ==> Piece(s)
  {
    forall n | n in subs ensures Piece(n) {
      assert n in Elems(subs);
      var s :| s in ss && n == ShownSub(d, long, s);
    }
  }

  ghost function GroupMeaning(d: Definition, long: bool, shown: seq<string>): Found {
    if shown == [] then Found({}, {}, {}, {}, false) else Meaning(d, GroupText(d, long, shown))
  }

  lemma GatherThree(d: Definition, a: set<string>, b: set<string>, c: set<string>, rs: set<string>, ss: set<string>,
                    m: Found)
    requires Gather(d, a) == Found(rs, {}, {}, {}, false)
    requires Gather(d, b) == m
    requires Gather(d, c) == Found({}, {}, ss, {}, false)
    ensures Gather(d, a + b + c) == Found(rs + m.req, m.groups, m.subgroups + ss, m.unknown, m.bad)
  {
    GatherUnion(d, a, b);
    GatherUnion(d, a + b, c);
    var u := Union(Union(Gather(d, a), m), Gather(d, c));
    assert u.req == rs + m.req && u.groups == m.groups && u.subgroups == m.subgroups + ss && u.unknown == m.unknown;
  }

  lemma GatherGroupText(d: Definition, long: bool, shown: seq<string>)
    ensures Gather(d, if shown == [] then {} else {GroupText(d, long, shown)}) == GroupMeaning(d, long, shown)
  {
    if shown == [] {
      GatherEmpty(d);
    } else {
      GatherSingle(d, GroupText(d, long, shown));
    }
  }

  /** What is gathered from the pieces of a printed marking. */
  lemma GatherPrinted(d: Definition, long: bool, p: Parts, shown: seq<string>)
    requires WellFormed(d) && Named(d, p)
    ensures var ps := ShownReqs(d, long, p.req) + (if shown == [] then {} else {GroupText(d, long, shown)})
                      + ShownSubs(d, long, p.subgroups);
            var m := GroupMeaning(d, long, shown);
            Gather(d, ps) == Found(p.req + m.req, m.groups, m.subgroups + p.subgroups, m.unknown, m.bad)
  {
    GatherReqs(d, long, p.req);
    GatherSubs(d, long, p.subgroups);
    GatherGroupText(d, long, shown);
    GatherThree(d, ShownReqs(d, long, p.req), if shown == [] then {} else {GroupText(d, long, shown)},
                ShownSubs(d, long, p.subgroups), p.req, p.subgroups, GroupMeaning(d, long, shown));
  }

  /** A level's name followed by sections is read back as that level and the pieces of the sections. */
  lemma ParseOfParts(d: Definition, level: string, n: nat, tail: string, f: Found, o: Options)
    requires '/' !in level && IsUpper(level) && IsUpper(tail) && (tail == "" || "//" <= tail)
    requires LevelIndex(d, level) == Valid(n) && Gather(d, Pieces(tail)) == f
    ensures Parse(d, level + tail, o) == Close(d, n, f, o)
  {
    ReadBack(level, tail);
  }

  /** The sections after the level. */
  function Tail(d: Definition, long: bool, req: seq<string>, shown: seq<string>, subs: seq<string>,
                hash: Hash): string
  {
    var inGroup := RequiredGroupItems(d, req) != [];
    ReqSection(d, req, hash) + GroupSection(d, long, inGroup, shown) + SubSection(inGroup || shown != [], subs)
  }

  lemma PrintedTail(d: Definition, long: bool, p: Parts, req: seq<string>, shown: seq<string>, subs: seq<string>,
                    hash: Hash)
    requires WellFormed(d) && Named(d, p) && Shows(d, long, p.groups, shown) && Lists(hash)
    requires Elems(req) == ShownReqs(d, long, p.req) && Elems(subs) == ShownSubs(d, long, p.subgroups)
    ensures var (tail, m) := (Tail(d, long, req, shown, subs, hash), GroupMeaning(d, long, shown));
            && IsUpper(tail) && (tail == "" || "//" <= tail)
            && Gather(d, Pieces(tail)) == Found(p.req + m.req, m.groups, m.subgroups + p.subgroups, m.unknown, m.bad)
  {
    ShownPieces(d, long, p, req, subs);
    if shown != [] {
      GroupTextIsPiece(d, long, p.groups, shown);
    }
    TailPieces(d, long, req, shown, subs, hash);
    GatherPrinted(d, long, p, shown);
  }

  /** The text parts are printed as, with the groups `gs`. */
  lemma PrintedText(d: Definition, p: Parts, req: seq<string>, groups: seq<string>, subs: seq<string>,
                    long: bool, skipAuto: bool, hash: Hash) returns (gs: set<string>, shown: seq<string>)
    requires WellFormed(d) && Named(d, p) && (NoAutoSelect(d) || skipAuto) && Lists(hash)
    requires Listed(d, long, p, req, groups, subs)
    ensures p.groups <= gs <= Filled(d, p).groups && (Fits(d, p) ==> gs == Filled(d, p).groups)
    ensures Shows(d, long, gs, shown) && shown == hash(ShownGroups(d, long, gs))
    ensures var level := LevelName(d, long, Raise(d, p).lvl);
            && level.Valid? && '/' !in level.value && IsUpper(level.value)
            && LevelIndex(d, level.value) == Valid(Raise(d, p).lvl)
            && Print(d, p.lvl, req, groups, subs, long, skipAuto, hash)
               == Valid(level.value + Tail(d, long, req, shown, subs, hash))
  {
    shown := GroupsToShow(d, long, skipAuto, groups, subs, hash);
    gs := ShownFilled(d, long, p, skipAuto, groups, subs, hash);
    PrintedLevelOf(d, long, p, req);
    PrintIs(d, p.lvl, req, groups, subs, long, skipAuto, hash);
  }

  lemma PrintedLevelOf(d: Definition, long: bool, p: Parts, req: seq<string>)
    requires WellFormed(d) && p.lvl in d.levelText && p.req <= d.reqStl.Keys && Elems(req) == ShownReqs(d, long, p.req)
    ensures Max(p.lvl, MaxRequired(d, req)) == Raise(d, p).lvl
    ensures var level := LevelName(d, long, Raise(d, p).lvl);
            level.Valid? && '/' !in level.value && IsUpper(level.value)
              && LevelIndex(d, level.value) == Valid(Raise(d, p).lvl)
  {
    MaxRequiredIsFloor(d, long, p.req, req);
    RaisedLevelExists(d, p);
    PrintedLevel(d, long, Raise(d, p).lvl);
  }

  lemma PrintIs(d: Definition, lvl: nat, req: seq<string>, groups: seq<string>, subs: seq<string>, long: bool,
                skipAuto: bool, hash: Hash)
    requires LevelName(d, long, Max(lvl, MaxRequired(d, req))).Valid?
    ensures var now := SubsToShow(d, long, skipAuto, subs, hash);
            Print(d, lvl, req, groups, subs, long, skipAuto, hash)
            == Valid(LevelName(d, long, Max(lvl, MaxRequired(d, req))).value
                     + Tail(d, long, req, GroupsToShow(d, long, skipAuto, groups, now, hash), now, hash))
  {
  }

  /** What parsing finds in the printed text. */
  lemma PrintThenRead(d: Definition, p: Parts, req: seq<string>, groups: seq<string>, subs: seq<string>,
                      long: bool, skipAuto: bool, hash: Hash, o: Options) returns (gs: set<string>, shown: seq<string>)
    requires WellFormed(d) && Named(d, p) && (NoAutoSelect(d) || skipAuto) && Lists(hash)
    requires Listed(d, long, p, req, groups, subs)
    ensures p.groups <= gs <= Filled(d, p).groups && (Fits(d, p) ==> gs == Filled(d, p).groups)
    ensures Shows(d, long, gs, shown)
    ensures Print(d, p.lvl, req, groups, subs, long, skipAuto, hash).Valid?
    ensures var m := GroupMeaning(d, long, shown);
            var text := Print(d, p.lvl, req, groups, subs, long, skipAuto, hash).value;
            Parse(d, text, o)
            == Close(d, Raise(d, p).lvl, Found(p.req + m.req, m.groups, m.subgroups + p.subgroups, m.unknown, m.bad), o)
  {
    var n := Raise(d, p).lvl;
    gs, shown := PrintedText(d, p, req, groups, subs, long, skipAuto, hash);
    NamedWith(d, p, gs);
    PrintedTail(d, long, p.(groups := gs), req, shown, subs, hash);
    var level, tail, m :=
      LevelName(d, long, n).value, Tail(d, long, req, shown, subs, hash), GroupMeaning(d, long, shown);
    ParseOfParts(d, level, n, tail, Found(p.req + m.req, m.groups, m.subgroups + p.subgroups, m.unknown, m.bad), o);
  }

  lemma NamedWith(d: Definition, p: Parts, gs: set<string>)
    requires WellFormed(d) && Named(d, p) && gs <= Filled(d, p).groups
    ensures Named(d, p.(groups := gs))
  {
    WellFormedIsConsistent(d);
    RequiredCloses(d, p.subgroups);
  }

  /** The same for parts that can be filled. */
  lemma PrintThenParse(d: Definition, p: Parts, req: seq<string>, groups: seq<string>, subs: seq<string>,
                       long: bool, skipAuto: bool, hash: Hash, o: Options) returns (shown: seq<string>)
    requires WellFormed(d) && Fillable(d, p) && (NoAutoSelect(d) || skipAuto) && Lists(hash)
    requires Listed(d, long, p, req, groups, subs)
    ensures Shows(d, long, Filled(d, p).groups, shown)
    ensures Print(d, p.lvl, req, groups, subs, long, skipAuto, hash).Valid?
    ensures var m := GroupMeaning(d, long, shown);
            var text := Print(d, p.lvl, req, groups, subs, long, skipAuto, hash).value;
            Parse(d, text, o)
            == Close(d, Raise(d, p).lvl, Found(p.req + m.req, m.groups, m.subgroups + p.subgroups, m.unknown, m.bad), o)
  {
    var gs: set<string>;
    gs, shown := PrintThenRead(d, p, req, groups, subs, long, skipAuto, hash, o);
  }

  lemma RaisedLevelExists(d: Definition, p: Parts)
    requires WellFormedLevels(d) && p.lvl in d.levelText
    ensures Raise(d, p).lvl in d.levelText
  {
    if Floor(d, p.req) != 0 {
      var r :| r in p.req && ParamsOf(d, r).requireLvl == Floor(d, p.req);
    }
  }

  lemma GroupTextIsPiece(d: Definition, long: bool, gs: set<string>, shown: seq<string>)
    requires WellFormed(d) && Shows(d, long, gs, shown) && shown != []
    ensures Piece(GroupText(d, long, shown))
  {
    if Printable(d, gs) {
      GroupsReadBack(d, long, gs, shown);
    } else {
      var _ := GroupsLost(d, long, gs, shown);
    }
  }

  // ---------------------------------------------------------------- the round trip

  /** Parsing a printed marking returns the printed parts, level raised and required groups added,
      exactly when the groups are printable. */
  lemma ParseInvertsPrint(d: Definition, p: Parts, req: seq<string>, groups: seq<string>, subs: seq<string>,
                          long: bool, skipAuto: bool, hash: Hash)
    requires WellFormed(d) && Fillable(d, p) && (NoAutoSelect(d) || skipAuto) && Lists(hash)
    requires Listed(d, long, p, req, groups, subs)
    ensures Print(d, p.lvl, req, groups, subs, long, skipAuto, hash).Valid?
    ensures var text := Print(d, p.lvl, req, groups, subs, long, skipAuto, hash).value;
            Parse(d, text, STANDARD) == Valid(Raise(d, Filled(d, p))) <==> Printable(d, Filled(d, p).groups)
  {
    var shown := PrintThenParse(d, p, req, groups, subs, long, skipAuto, hash, STANDARD);
    var q := Filled(d, p);
    if Printable(d, q.groups) {
      PrintableComesBack(d, long, q, shown);
    } else {
      LostIsMissing(d, long, q, shown);
    }
  }

  lemma PrintableComesBack(d: Definition, long: bool, p: Parts, shown: seq<string>)
    requires WellFormed(d) && Closed(d, p) && Shows(d, long, p.groups, shown) && Printable(d, p.groups)
    ensures var m := GroupMeaning(d, long, shown);
            Close(d, Raise(d, p).lvl, Found(p.req + m.req, m.groups, m.subgroups + p.subgroups, m.unknown, m.bad),
              STANDARD)
            == Valid(Raise(d, p))
  {
    if shown != [] {
      GroupsReadBack(d, long, p.groups, shown);
    } else {
      NoGroupsShown(d, long, p.groups, shown);
      assert p.groups * d.groupStl.Keys == {} && p.groups - d.groupStl.Keys == {};
    }
    ClosedStays(d, p);
  }

  lemma NoGroupsShown(d: Definition, long: bool, gs: set<string>, shown: seq<string>)
    requires Shows(d, long, gs, shown) && shown == []
    ensures gs == {}
  {
    assert Elems(shown) == {};
    assert forall g :: g in gs ==> ShownGroup(d, long, g) in ShownGroups(d, long, gs);
  }

  lemma ClosedStays(d: Definition, p: Parts)
    requires Closed(d, p)
    ensures Close(d, Raise(d, p).lvl,
                  Found(p.req + {}, p.groups * d.groupStl.Keys, {} + p.subgroups, p.groups - d.groupStl.Keys, false),
                    STANDARD)
            == Valid(Raise(d, p))
  {
    assert p.groups * d.groupStl.Keys + (p.groups - d.groupStl.Keys) == p.groups;
    assert p.groups + RequiredGroups(d, p.subgroups) == p.groups;
    assert p.req + {} == p.req && {} + p.subgroups == p.subgroups;
    if !d.dynamicGroups {
      assert p.groups - d.groupStl.Keys == {};
    }
  }

  lemma LostIsMissing(d: Definition, long: bool, p: Parts, shown: seq<string>)
    requires WellFormed(d) && Closed(d, p) && Shows(d, long, p.groups, shown) && !Printable(d, p.groups)
    ensures var m := GroupMeaning(d, long, shown);
            Close(d, Raise(d, p).lvl, Found(p.req + m.req, m.groups, m.subgroups + p.subgroups, m.unknown, m.bad),
              STANDARD)
            != Valid(Raise(d, p))
  {
    if shown == [] {
      NoGroupsShown(d, long, p.groups, shown);
    } else {
      var lost := GroupsLost(d, long, p.groups, shown);
      var m := Meaning(d, GroupText(d, long, shown));
      WellFormedIsConsistent(d);
      MeaningCloses(d, GroupText(d, long, shown));
      StaysMissing(d, p, m, lost);
    }
  }

  lemma StaysMissing(d: Definition, p: Parts, m: Found, lost: string)
    requires Consistent(d) && FoundCloses(d, m) && p.subgroups <= d.subStl.Keys
    requires lost in p.groups && lost !in d.groupStl && lost !in m.groups && lost !in m.unknown
    ensures Close(d, Raise(d, p).lvl, Found(p.req + m.req, m.groups, m.subgroups + p.subgroups, m.unknown, m.bad),
            STANDARD)
            != Valid(Raise(d, p))
  {
    RequiredCloses(d, m.subgroups + p.subgroups);
  }

  /** The lists `_get_classification_parts` returns, in the requested format. */
  datatype Lists4 = Lists4(lvl: nat, req: seq<string>, groups: seq<string>, subgroups: seq<string>)

  ghost predicate ListsOf(d: Definition, long: bool, p: Parts, l: Lists4) {
    l.lvl == p.lvl && Listed(d, long, p, l.req, l.groups, l.subgroups)
  }
}
