/** The parser as the loops of the Classification class, proved to read the parts `Marking.Parse` names. */
module Parsing {
  import opened Strings
  import opened Marking
  import opened MarkingText
  import opened Normalization

  // ---------------------------------------------------------------- the parsing loops

  ghost function ReqPart(d: Definition, ps: set<string>): set<string> {
    set p, x | p in ps && ReqOf(d, p).Some? && x in ReqOf(d, p).value :: x
  }

  function UnusedPart(d: Definition, ps: set<string>): set<string> {
    set p | p in ps && ReqOf(d, p).None?
  }

  ghost function RelTokens(ps: set<string>): set<string> {
    set p, t | p in ps && StartsWith(p, "REL ") && t in Tokens(p) :: t
  }

  ghost function SubPieces(ps: set<string>): set<string> {
    set p | p in ps && !StartsWith(p, "REL ")
  }

  method GetRequired(d: Definition, text: string, long: bool, hash: Hash)
    returns (req: seq<string>, unused: seq<string>)
    requires Lists(hash)
    ensures Elems(req) == ShownReqs(d, long, ReqPart(d, Pieces(Upper(text)))) && Once(req)
    ensures Elems(unused) == UnusedPart(d, Pieces(Upper(text)))
  {
    var found: set<string> := {};
    unused := [];
    var order := hash(Elems(Split(Upper(text), '/')));
    for i := 0 to |order|
      invariant Sorted(d, Elems(order[..i]), found, unused)
    {
      assert order[..i + 1] == order[..i] + [order[i]];
      found, unused := SortPiece(d, order[i], found, unused, Elems(order[..i]));
      assert Elems(order[..i + 1]) == Elems(order[..i]) + {order[i]};
    }
    assert order[..|order|] == order;
    req := Sort(hash(ShownReqs(d, long, found)));
    ElemsSort(hash(ShownReqs(d, long, found)));
    assert Elems(order) - {""} == Pieces(Upper(text));
  }

  /** The pieces seen so far, but for empty ones, are found as required items or left over. */
  ghost predicate Sorted(d: Definition, seen: set<string>, found: set<string>, unused: seq<string>) {
    found == ReqPart(d, seen - {""}) && Elems(unused) == UnusedPart(d, seen - {""})
  }

  method SortPiece(d: Definition, p: string, found: set<string>, unused: seq<string>, ghost seen: set<string>)
    returns (foundNow: set<string>, unusedNow: seq<string>)
    requires Sorted(d, seen, found, unused)
    ensures Sorted(d, seen + {p}, foundNow, unusedNow)
  {
    foundNow, unusedNow := found, unused;
    if p == "" {
      assert seen + {p} - {""} == seen - {""};
      return;
    }
    ReqStep(d, seen - {""}, p);
    assert seen + {p} - {""} == seen - {""} + {p};
    if p in d.reqLts {
      foundNow := found + {d.reqLts[p]};
    } else if p in d.reqStl {
      foundNow := found + {p};
    } else if p in d.reqAliases {
      foundNow := found + Elems(d.reqAliases[p]);
    } else {
      unusedNow := unused + [p];
    }
  }

  lemma ReqStep(d: Definition, ps: set<string>, p: string)
    ensures ReqPart(d, ps + {p}) == ReqPart(d, ps) + (if ReqOf(d, p).Some? then ReqOf(d, p).value else {})
    ensures UnusedPart(d, ps + {p}) == UnusedPart(d, ps) + (if ReqOf(d, p).None? then {p} else {})
  {
    if ReqOf(d, p).Some? {
      assert p in ps + {p};
    }
  }

  /** The pieces behind the required items, in two lists: group tokens and the rest. */
  method SplitRel(unused: seq<string>, hash: Hash) returns (groups: seq<string>, subgroups: seq<string>)
    requires Lists(hash) && forall p :: p in unused ==> '/' !in p
    ensures Elems(groups) == RelTokens(Elems(unused))
    ensures Elems(subgroups) == SubPieces(Elems(unused))
  {
    groups, subgroups := [], [];
    for i := 0 to |unused|
      invariant Elems(groups) == RelTokens(Elems(unused[..i]))
      invariant Elems(subgroups) == SubPieces(Elems(unused[..i]))
    {
      var gp := unused[i];
      assert unused[..i + 1] == unused[..i] + [gp];
      assert Elems(unused[..i + 1]) == Elems(unused[..i]) + {gp};
      RelStep(Elems(unused[..i]), gp);
      if StartsWith(gp, "REL ") {
        groups := ExtendTokens(groups, gp, hash);
      } else {
        subgroups := subgroups + [gp];
      }
    }
    assert unused[..|unused|] == unused;
  }

  method ExtendTokens(before: seq<string>, gp: string, hash: Hash) returns (groups: seq<string>)
    requires Lists(hash) && '/' !in gp
    ensures Elems(groups) == Elems(before) + Tokens(gp)
  {
    groups := before;
    var temp := hash(Tokens(gp));
    for j := 0 to |temp|
      invariant Elems(groups) == Elems(before) + Elems(temp[..j])
    {
      assert temp[j] in Elems(temp);
      TokenHasNoSlash(gp, temp[j]);
      SplitNone(temp[j], '/');
      assert temp[..j + 1] == temp[..j] + [temp[j]];
      assert Elems(groups + [temp[j]]) == Elems(groups) + {temp[j]};
      groups := groups + Split(temp[j], '/');
    }
    assert temp[..|temp|] == temp;
  }

  lemma RelStep(ps: set<string>, p: string)
    ensures RelTokens(ps + {p}) == RelTokens(ps) + (if StartsWith(p, "REL ") then Tokens(p) else {})
    ensures SubPieces(ps + {p}) == SubPieces(ps) + (if StartsWith(p, "REL ") then {} else {p})
  {
    assert p in ps + {p};
  }

  lemma TokenHasNoSlash(p: string, t: string)
    requires '/' !in p && t in Tokens(p)
    ensures '/' !in t
  {
    var piece :| piece in Split(Clean(p), ',') && Strip(piece) == t;
    CleanFacts(p);
    SplitPiece(Clean(p), ',', piece);
    StripFacts(piece);
  }

  method LookUpGroups(d: Definition, groups: seq<string>) returns (known: set<string>, others: set<string>)
    ensures known == Known(d, Elems(groups)) && others == Unknown(d, Elems(groups))
  {
    known, others := {}, {};
    for i := 0 to |groups|
      invariant known == Known(d, Elems(groups[..i])) && others == Unknown(d, Elems(groups[..i]))
    {
      var g := groups[i];
      assert Elems(groups[..i + 1]) == Elems(groups[..i]) + {g} by {
        assert groups[..i + 1] == groups[..i] + [g];
      }
      KnownStep(d, Elems(groups[..i]), g);
      if g in d.groupLts {
        known := known + {d.groupLts[g]};
      } else if g in d.groupStl {
        known := known + {g};
      } else if g in d.groupAliases {
        known := known + Elems(d.groupAliases[g]);
      } else {
        others := others + {g};
      }
    }
    assert groups[..|groups|] == groups;
  }

  lemma KnownStep(d: Definition, ts: set<string>, t: string)
    ensures Known(d, ts + {t}) == Known(d, ts) + (if GroupOf(d, t).Some? then GroupOf(d, t).value else {})
    ensures Unknown(d, ts + {t}) == Unknown(d, ts) + (if GroupOf(d, t).None? then {t} else {})
  {
    assert t in ts + {t};
  }

  ghost predicate BadSub(d: Definition, p: string) {
    SubOf(d, p).None? && !(p in d.groupAliases && |d.groupAliases[p]| == 1)
  }

  ghost function SubPart(d: Definition, ps: set<string>): set<string> {
    set p, x | p in ps && SubOf(d, p).Some? && x in SubOf(d, p).value :: x
  }

  ghost function SolitaryPart(d: Definition, ps: set<string>): set<string> {
    set p, x | p in ps && SubOf(d, p).None? && p in d.groupAliases && x in d.groupAliases[p] :: x
  }

  /** The second loop: subgroups, and the solitary display names of groups. */
  method LookUpSubgroups(d: Definition, subgroups: seq<string>)
    returns (r: Result<(set<string>, set<string>)>)
    requires forall a :: a in d.groupAliases ==> d.groupAliases[a] != []
    ensures r.Invalid? <==> exists p :: p in subgroups && BadSub(d, p)
    ensures r.Valid? ==> r.value == (SolitaryPart(d, Elems(subgroups)), SubPart(d, Elems(subgroups)))
  {
    var groups: set<string>, subs: set<string> := {}, {};
    for i := 0 to |subgroups|
      invariant forall p :: p in subgroups[..i] ==> !BadSub(d, p)
      invariant groups == SolitaryPart(d, Elems(subgroups[..i])) && subs == SubPart(d, Elems(subgroups[..i]))
    {
      var g := subgroups[i];
      assert Elems(subgroups[..i + 1]) == Elems(subgroups[..i]) + {g} by {
        assert subgroups[..i + 1] == subgroups[..i] + [g];
      }
      assert g in subgroups;
      SubStep(d, Elems(subgroups[..i]), g);
      if g in d.subLts {
        subs := subs + {d.subLts[g]};
      } else if g in d.subStl {
        subs := subs + {g};
      } else if g in d.subAliases {
        subs := subs + Elems(d.subAliases[g]);
      } else if g in d.groupAliases {
        if |d.groupAliases[g]| > 1 {
          assert BadSub(d, g);
          return Invalid;
        }
        assert Elems(d.groupAliases[g]) == {d.groupAliases[g][0]};
        groups := groups + {d.groupAliases[g][0]};
      } else {
        assert BadSub(d, g);
        return Invalid;
      }
    }
    assert subgroups[..|subgroups|] == subgroups;
    r := Valid((groups, subs));
  }

  lemma SubStep(d: Definition, ps: set<string>, p: string)
    ensures SubPart(d, ps + {p}) == SubPart(d, ps) + (if SubOf(d, p).Some? then SubOf(d, p).value else {})
    ensures SolitaryPart(d, ps + {p})
            == SolitaryPart(d, ps) + (if SubOf(d, p).None? && p in d.groupAliases then Elems(d.groupAliases[p]) else {})
  {
    assert p in ps + {p};
  }

  // ---------------------------------------------------------------- the loops meet the meaning of pieces

  /** The loops sort the pieces exactly as their meanings do. */
  lemma GatherFromLoops(d: Definition, ps: set<string>)
    requires forall a :: a in d.groupAliases ==> d.groupAliases[a] != []
    ensures var f := Gather(d, ps);
            var unused := UnusedPart(d, ps);
            && f.req == ReqPart(d, ps)
            && f.groups == Known(d, RelTokens(unused)) + SolitaryPart(d, SubPieces(unused) - BadPieces(d, ps))
            && f.subgroups == SubPart(d, SubPieces(unused))
            && f.unknown == Unknown(d, RelTokens(unused))
            && (f.bad <==> exists p :: p in SubPieces(unused) && BadSub(d, p))
  {
    var f := Gather(d, ps);
    var unused := UnusedPart(d, ps);
    GatheredGroups(d, ps);
    GatheredReqs(d, ps);
    GatheredSubs(d, ps);
    GatheredUnknown(d, ps);
    GatheredBad(d, ps);
  }

  ghost function BadPieces(d: Definition, ps: set<string>): set<string> {
    set p | p in ps && BadSub(d, p)
  }

  lemma GatheredGroups(d: Definition, ps: set<string>)
    requires forall a :: a in d.groupAliases ==> d.groupAliases[a] != []
    ensures var unused := UnusedPart(d, ps);
            Gather(d, ps).groups == Known(d, RelTokens(unused)) + SolitaryPart(d, SubPieces(unused) - BadPieces(d, ps))
  {
    var unused := UnusedPart(d, ps);
    forall x | x in Gather(d, ps).groups
      ensures x in Known(d, RelTokens(unused)) + SolitaryPart(d, SubPieces(unused) - BadPieces(d, ps))
    {
      var p :| p in ps && x in Meaning(d, p).groups;
      if StartsWith(p, "REL ") {
        assert forall t :: t in Tokens(p) ==> t in RelTokens(unused);
      } else {
        assert p in SubPieces(unused) - BadPieces(d, ps);
      }
    }
    forall x | x in Known(d, RelTokens(unused)) ensures x in Gather(d, ps).groups {
      var t :| t in RelTokens(unused) && GroupOf(d, t).Some? && x in GroupOf(d, t).value;
      var p :| p in unused && StartsWith(p, "REL ") && t in Tokens(p);
      assert x in Meaning(d, p).groups;
    }
    forall x | x in SolitaryPart(d, SubPieces(unused) - BadPieces(d, ps)) ensures x in Gather(d, ps).groups {
      var p :| p in SubPieces(unused) - BadPieces(d, ps) && SubOf(d, p).None? && p in d.groupAliases
        && x in d.groupAliases[p];
      assert x in Meaning(d, p).groups;
    }
  }

  lemma GatheredReqs(d: Definition, ps: set<string>)
    ensures Gather(d, ps).req == ReqPart(d, ps)
  {
    forall x | x in Gather(d, ps).req ensures x in ReqPart(d, ps) {
      var p :| p in ps && x in Meaning(d, p).req;
    }
    forall x | x in ReqPart(d, ps) ensures x in Gather(d, ps).req {
      var p :| p in ps && ReqOf(d, p).Some? && x in ReqOf(d, p).value;
      assert x in Meaning(d, p).req;
    }
  }

  lemma GatheredSubs(d: Definition, ps: set<string>)
    ensures Gather(d, ps).subgroups == SubPart(d, SubPieces(UnusedPart(d, ps)))
  {
    var unused := UnusedPart(d, ps);
    forall x | x in Gather(d, ps).subgroups ensures x in SubPart(d, SubPieces(unused)) {
      var p :| p in ps && x in Meaning(d, p).subgroups;
      assert p in SubPieces(unused);
    }
    forall x | x in SubPart(d, SubPieces(unused)) ensures x in Gather(d, ps).subgroups {
      var p :| p in SubPieces(unused) && SubOf(d, p).Some? && x in SubOf(d, p).value;
      assert x in Meaning(d, p).subgroups;
    }
  }

  lemma GatheredBad(d: Definition, ps: set<string>)
    ensures Gather(d, ps).bad <==> exists p :: p in SubPieces(UnusedPart(d, ps)) && BadSub(d, p)
  {
    if Gather(d, ps).bad {
      var p :| p in ps && Meaning(d, p).bad;
      assert p in SubPieces(UnusedPart(d, ps));
    }
    if p :| p in SubPieces(UnusedPart(d, ps)) && BadSub(d, p) {
      assert Meaning(d, p).bad;
    }
  }

  lemma GatheredUnknown(d: Definition, ps: set<string>)
    ensures Gather(d, ps).unknown == Unknown(d, RelTokens(UnusedPart(d, ps)))
  {
    var unused := UnusedPart(d, ps);
    forall x | x in Gather(d, ps).unknown ensures x in Unknown(d, RelTokens(unused)) {
      var p :| p in ps && x in Meaning(d, p).unknown;
      assert p in unused && StartsWith(p, "REL ") && x in Tokens(p);
    }
    forall x | x in Unknown(d, RelTokens(unused)) ensures x in Gather(d, ps).unknown {
      var p :| p in unused && StartsWith(p, "REL ") && x in Tokens(p);
      assert x in Meaning(d, p).unknown;
    }
  }

  // ---------------------------------------------------------------- the whole parser

  /** The groups after the dynamic and the required ones are added. */
  ghost function AllGroups(d: Definition, unused: set<string>, dynamic: bool): set<string> {
    Known(d, RelTokens(unused)) + SolitaryPart(d, SubPieces(unused))
    + (if dynamic then Unknown(d, RelTokens(unused)) else {})
    + RequiredGroups(d, SubPart(d, SubPieces(unused)))
  }

  method AddRequired(d: Definition, groups: set<string>, subs: set<string>, hash: Hash) returns (all: set<string>)
    requires Lists(hash) && forall x :: x in d.params && d.params[x].requireGroup.Some? ==>
      d.params[x].requireGroup.value != ""
    ensures all == groups + RequiredGroups(d, subs)
  {
    all := groups;
    var order := hash(subs);
    for i := 0 to |order|
      invariant all == groups + RequiredGroups(d, Elems(order[..i]))
    {
      assert Elems(order[..i + 1]) == Elems(order[..i]) + {order[i]} by {
        assert order[..i + 1] == order[..i] + [order[i]];
      }
      RequiredStep(d, Elems(order[..i]), order[i]);
      var required := ParamsOf(d, order[i]).requireGroup;
      if required.Some? && required.value != "" {
        all := all + {required.value};
      }
    }
    assert order[..|order|] == order;
  }

  lemma RequiredStep(d: Definition, ss: set<string>, s: string)
    ensures RequiredGroups(d, ss + {s})
            == RequiredGroups(d, ss)
              + (if ParamsOf(d, s).requireGroup.Some? then {ParamsOf(d, s).requireGroup.value} else {})
  {
    assert s in ss + {s};
  }

  method CheckLimits(d: Definition, groups: set<string>, subs: set<string>, hash: Hash) returns (ok: bool)
    requires Lists(hash)
    ensures ok <==> WithinLimits(d, subs, groups)
  {
    var order := hash(subs);
    for i := 0 to |order|
      invariant WithinLimits(d, Elems(order[..i]), groups)
    {
      assert Elems(order[..i + 1]) == Elems(order[..i]) + {order[i]} by {
        assert order[..i + 1] == order[..i] + [order[i]];
      }
      assert order[i] in Elems(order);
      var limited := ParamsOf(d, order[i]).limitedTo;
      if limited.Some? {
        AtMostOne(groups, limited.value);
        if |groups| > 1 || (|groups| == 1 && groups != {limited.value}) {
          return false;
        }
      }
    }
    assert order[..|order|] == order;
    ok := true;
  }

  lemma AtMostOne(groups: set<string>, x: string)
    ensures groups <= {x} <==> !(|groups| > 1 || (|groups| == 1 && groups != {x}))
  {
    if groups <= {x} {
      if x in groups { assert groups == {x}; } else { assert groups == {}; }
    } else {
      assert groups != {};
    }
  }

  method GetGroups(d: Definition, unused: seq<string>, long: bool, getDynamic: bool, autoSelect: bool, hash: Hash)
    returns (r: Result<(seq<string>, seq<string>, seq<string>)>)
    requires Lists(hash) && forall p :: p in unused ==> '/' !in p
    requires forall a :: a in d.groupAliases ==> d.groupAliases[a] != []
    requires forall x :: x in d.params && d.params[x].requireGroup.Some? ==> d.params[x].requireGroup.value != ""
    ensures var dynamic := d.dynamicGroups && getDynamic;
            var groups := AllGroups(d, Elems(unused), dynamic);
            var subs := SubPart(d, SubPieces(Elems(unused)));
            && (r.Invalid? <==>
                 (exists p :: p in SubPieces(Elems(unused)) && BadSub(d, p)) || !WithinLimits(d, subs, groups))
            && (r.Valid? ==>
                  && Once(r.value.0) && Once(r.value.1)
                  && Elems(r.value.0)
                     == ShownGroups(d, long, if autoSelect && groups != {} then groups + Elems(d.groupAuto) else groups)
                  && Elems(r.value.1)
                     == ShownSubs(d, long, if autoSelect && subs != {} then subs + Elems(d.subAuto) else subs)
                  && Elems(r.value.2) == if dynamic then {} else Unknown(d, RelTokens(Elems(unused))))
  {
    var tokens, rest := SplitRel(unused, hash);
    var g1, others := LookUpGroups(d, tokens);
    var found := LookUpSubgroups(d, rest);
    assert forall p :: p in rest <==> p in SubPieces(Elems(unused)) by {
      assert forall p :: p in rest <==> p in Elems(rest);
    }
    if found.Invalid? {
      return Invalid;
    }
    var g2 := found.value.1;
    g1 := g1 + found.value.0;
    if d.dynamicGroups && getDynamic {
      g1 := g1 + others;
      others := {};
    }
    g1 := AddRequired(d, g1, g2, hash);
    assert g1 == AllGroups(d, Elems(unused), d.dynamicGroups && getDynamic);
    var ok := CheckLimits(d, g1, g2, hash);
    if !ok {
      return Invalid;
    }
    if autoSelect && g1 != {} {
      g1 := g1 + Elems(d.groupAuto);
    }
    if autoSelect && g2 != {} {
      g2 := g2 + Elems(d.subAuto);
    }
    ElemsSort(hash(ShownGroups(d, long, g1)));
    ElemsSort(hash(ShownSubs(d, long, g2)));
    r := Valid((Sort(hash(ShownGroups(d, long, g1))), Sort(hash(ShownSubs(d, long, g2))), hash(others)));
  }

  ghost predicate Usable(d: Definition) {
    && (forall a :: a in d.groupAliases ==> d.groupAliases[a] != [])
    && (forall x :: x in d.params && d.params[x].requireGroup.Some? ==> d.params[x].requireGroup.value != "")
  }

  method GetParts(d: Definition, text: string, long: bool, o: Options, hash: Hash) returns (r: Result<Lists4>)
    requires Lists(hash) && Usable(d)
    ensures r.Invalid? <==> Parse(d, text, o).Invalid?
    ensures r.Valid? ==> ListsOf(d, long, Parse(d, text, o).value, r.value)
  {
    var (lvl, remain) := Partition(Upper(text));
    PiecesOfText(text);
    var n := LevelIndex(d, lvl);
    if n.Invalid? {
      return Invalid;
    }
    RemainIsUpper(text);
    var req, unused := GetRequired(d, remain, long, hash);
    forall p | p in unused ensures '/' !in p { assert p in Elems(unused); }
    var g := GetGroups(d, unused, long, o.getDynamic, o.autoSelect, hash);
    ghost var f := Gather(d, Pieces(remain));
    GatherFromLoops(d, Pieces(remain));
    if g.Invalid? {
      NoBadPieces(d, Pieces(remain));
      return Invalid;
    }
    NoBadPieces(d, Pieces(remain));
    var (groups, subgroups, others) := g.value;
    if others != [] && !o.ignoreUnused {
      assert others[0] in Elems(others);
      return Invalid;
    }
    r := Valid(Lists4(n.value, req, groups, subgroups));
  }

  lemma NoBadPieces(d: Definition, ps: set<string>)
    ensures var unused := UnusedPart(d, ps);
            (!exists p :: p in SubPieces(unused) && BadSub(d, p)) ==>
              SubPieces(unused) - BadPieces(d, ps) == SubPieces(unused)
  {
  }

  lemma RemainIsUpper(text: string)
    ensures Upper(Partition(Upper(text)).1) == Partition(Upper(text)).1
  {
    UpperFixed(text);
    PartitionChars(Upper(text));
    UpperChars(Upper(text), Partition(Upper(text)).1);
    UpperFixed(Partition(Upper(text)).1);
  }
}
