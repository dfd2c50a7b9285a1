/** The printer as the loops of the Classification class, proved to produce `Marking.Print`. */
module Printing {
  import opened Strings
  import opened Marking
  import opened Normalization

  method RequiredLevel(d: Definition, req: seq<string>) returns (n: nat)
    ensures n == MaxRequired(d, req)
  {
    n := 0;
    assert req[0..] == req;
    for i := 0 to |req|
      invariant Max(n, MaxRequired(d, req[i..])) == MaxRequired(d, req)
    {
      assert req[i..][1..] == req[i + 1..];
      n := Max(n, ParamsOf(d, req[i]).requireLvl);
    }
  }

  method RequiredInGroups(d: Definition, req: seq<string>) returns (inGroup: seq<string>)
    ensures inGroup == RequiredGroupItems(d, req)
  {
    inGroup := [];
    assert req[0..] == req;
    for i := 0 to |req|
      invariant inGroup + RequiredGroupItems(d, req[i..]) == RequiredGroupItems(d, req)
    {
      NextRequired(d, req, i, inGroup);
      if ParamsOf(d, req[i]).requiredGroup {
        inGroup := inGroup + [req[i]];
      }
    }
  }

  lemma NextRequired(d: Definition, req: seq<string>, i: nat, before: seq<string>)
    requires i < |req|
    ensures before + RequiredGroupItems(d, req[i..])
            == (if ParamsOf(d, req[i]).requiredGroup then before + [req[i]] else before)
              + RequiredGroupItems(d, req[i + 1..])
  {
    var rest := RequiredGroupItems(d, req[i + 1..]);
    assert req[i..][1..] == req[i + 1..];
    assert before + ([req[i]] + rest) == before + [req[i]] + rest;
    assert before + ([] + rest) == before + rest;
  }

  method GroupsBroughtIn(d: Definition, subgroups: seq<string>) returns (temp: seq<string>)
    ensures temp == TempGroups(d, subgroups, [])
  {
    temp := [];
    assert subgroups[0..] == subgroups;
    for i := 0 to |subgroups|
      invariant TempGroups(d, subgroups[i..], temp) == TempGroups(d, subgroups, [])
    {
      assert subgroups[i..][1..] == subgroups[i + 1..];
      var p := ParamsOf(d, subgroups[i]);
      if p.requireGroup.Some? {
        temp := temp + [p.requireGroup.value];
      }
      if p.limitedTo.Some? {
        if p.limitedTo.value in temp {
          temp := [p.limitedTo.value];
        } else {
          temp := [];
        }
      }
    }
  }

  method Fold(d: Definition, groups: seq<string>) returns (shown: seq<string>)
    requires forall a :: a in d.groupAliasOrder ==> a in d.groupAliases
    ensures shown == FoldAlias(d, d.groupAliasOrder, groups)
  {
    shown := groups;
    var order := d.groupAliasOrder;
    assert order[0..] == order;
    for i := 0 to |order|
      invariant FoldAlias(d, order[i..], shown) == FoldAlias(d, order, groups)
    {
      assert order[i..][1..] == order[i + 1..];
      var values := d.groupAliases[order[i]];
      if |values| > 1 {
        if Sort(values) == shown {
          shown := [order[i]];
        }
      }
    }
  }

  method PutRequired(d: Definition, l: seq<string>, inGroup: seq<string>, hash: Hash) returns (out: string)
    requires inGroup == RequiredGroupItems(d, l)
    ensures out == ReqSection(d, l, hash)
  {
    out := "";
    var req := hash(Elems(l) - Elems(inGroup));
    if req != [] {
      out := out + "//" + Join("/", req);
    }
    if inGroup != [] {
      out := out + "//" + Join("/", Sort(inGroup));
    }
  }

  method PutGroups(d: Definition, long: bool, inGroup: bool, groups: seq<string>, before: string) returns (out: string)
    requires forall a :: a in d.groupAliasOrder ==> a in d.groupAliases
    ensures out == before + GroupSection(d, long, inGroup, groups)
  {
    out := before;
    if groups != [] {
      var mark := if inGroup then "/" else "//";
      if |groups| == 1 {
        var p := ParamsOf(d, groups[0]);
        if p.solitary.Some? && p.solitary.value != groups[0] {
          mark := mark + p.solitary.value;
        } else {
          mark := mark + ("REL TO " + groups[0]);
        }
      } else {
        var shown := groups;
        if !long {
          shown := Fold(d, groups);
        }
        mark := mark + ("REL TO " + Join(", ", Sort(shown)));
      }
      out := out + mark;
    }
  }

  method PutSubgroups(joined: bool, subgroups: seq<string>, before: string) returns (out: string)
    ensures out == before + SubSection(joined, subgroups)
  {
    out := before;
    if subgroups != [] {
      out := out + ((if joined then "/" else "//") + Join("/", Sort(subgroups)));
    }
  }

  method GetText(d: Definition, l: Lists4, long: bool, skipAuto: bool, hash: Hash) returns (r: Result<string>)
    requires forall a :: a in d.groupAliasOrder ==> a in d.groupAliases
    ensures r == Print(d, l.lvl, l.req, l.groups, l.subgroups, long, skipAuto, hash)
  {
    var required := RequiredLevel(d, l.req);
    var level := LevelName(d, long, Max(l.lvl, required));
    if level.Invalid? {
      return Invalid;
    }
    var inGroup := RequiredInGroups(d, l.req);
    var out := PutRequired(d, l.req, inGroup, hash);
    var subgroups := ChooseSubgroups(d, l.subgroups, long, skipAuto, hash);
    var groups := ChooseGroups(d, l.groups, subgroups, long, skipAuto, hash);
    out := PutGroups(d, long, |inGroup| > 0, groups, out);
    out := PutSubgroups(|groups| > 0 || |inGroup| > 0, subgroups, out);
    r := Valid(level.value + out);
  }

  method ChooseSubgroups(d: Definition, subgroups: seq<string>, long: bool, skipAuto: bool, hash: Hash)
    returns (subs: seq<string>)
    ensures subs == SubsToShow(d, long, skipAuto, subgroups, hash)
  {
    subs := subgroups;
    if |subgroups| > 0 && |d.subAuto| > 0 && !skipAuto {
      subs := Sort(hash(Elems(subgroups) + AutoSubs(d, long)));
    }
  }

  method ChooseGroups(d: Definition, groups: seq<string>, subgroups: seq<string>, long: bool, skipAuto: bool,
                      hash: Hash)
    returns (shown: seq<string>)
    ensures shown == GroupsToShow(d, long, skipAuto, groups, subgroups, hash)
  {
    var temp := GroupsBroughtIn(d, subgroups);
    var all := Elems(groups) + set g | g in temp :: BroughtIn(d, long, g);
    shown := hash(all);
    if |shown| > 0 && |d.groupAuto| > 0 && !skipAuto {
      shown := Sort(hash(all + AutoGroups(d, long)));
    }
  }
}
