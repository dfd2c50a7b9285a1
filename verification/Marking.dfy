/** Classification markings: the definition the engine is configured with, the meaning of a
    marking text, and the text of a marking.

    Parsed parts are kept here by short name; `Shown*` gives the name a part has in the long
    or the short format. Python builds several lists out of sets; the order of such a list is
    the parameter `hash`, about which only `Lists(hash)` is known. */
module Marking {
  import opened Wrappers
  import opened Strings

  /** `Invalid` stands for a raised InvalidClassification. */
  datatype Result<+T> = Valid(value: T) | Invalid

  /** The entries of `params_map` the engine reads. */
  datatype Params = Params(
    requireLvl: nat,
    requiredGroup: bool,
    requireGroup: Option<string>,
    limitedTo: Option<string>,
    solitary: Option<string>)

  /** The tables the constructor of Classification fills from its definition. The two uses of
      `levels_map` (short name to number, decimal text of a number to short name) are
      `levelOf` and `levelText`. */
  datatype Definition = Definition(
    levelOf: map<string, nat>,
    levelText: map<nat, string>,
    levelStl: map<string, string>,
    levelLts: map<string, string>,
    levelAliases: map<string, string>,
    reqStl: map<string, string>,
    reqLts: map<string, string>,
    reqAliases: map<string, seq<string>>,
    groupStl: map<string, string>,
    groupLts: map<string, string>,
    groupAliases: map<string, seq<string>>,
    groupAliasOrder: seq<string>,
    groupAuto: seq<string>,
    subStl: map<string, string>,
    subLts: map<string, string>,
    subAliases: map<string, seq<string>>,
    subAuto: seq<string>,
    params: map<string, Params>,
    dynamicGroups: bool)

  const PLAIN := Params(0, false, None, None, None)

  function ParamsOf(d: Definition, name: string): Params {
    if name in d.params then d.params[name] else PLAIN
  }

  function Elems(s: seq<string>): set<string> {
    set x | x in s
  }

  /** No name twice. */
  ghost predicate Once(s: seq<string>) {
    |s| == |Elems(s)|
  }

  type Hash = set<string> -> seq<string>

  /** `hash` is a possible order of Python's `list(a_set)`. */
  ghost predicate Lists(hash: Hash) {
    forall s: set<string> {:trigger hash(s)} :: Elems(hash(s)) == s && |hash(s)| == |s|
  }

  // ---------------------------------------------------------------- well-formed definitions

  /** The text of a configured name. */
  ghost predicate Name(s: string) {
    s != "" && '/' !in s && ',' !in s && Trimmed(s) && IsUpper(s) && !Contains(s, "REL ")
  }

  /** `t` is a key of `levels_map` that holds a name instead of a number. */
  predicate IsLevelNumber(d: Definition, t: string) {
    exists n :: n in d.levelText && Decimal(n) == t
  }

  /** Short and long names of one kind of item translate into each other, no short name is
      another item's long name, and both spellings share their parameters. */
  ghost predicate Bilingual(stl: map<string, string>, lts: map<string, string>, params: map<string, Params>) {
    && (forall s :: s in stl ==> Name(s) && Name(stl[s]) && stl[s] in lts && lts[stl[s]] == s)
    && (forall n :: n in lts ==> lts[n] in stl && stl[lts[n]] == n)
    && (forall x :: x in stl && x in lts ==> lts[x] == x)
    && (forall s :: s in stl ==> s in params && stl[s] in params && params[s] == params[stl[s]])
  }

  ghost predicate WellNamedAliases(aliases: map<string, seq<string>>, stl: map<string, string>) {
    forall a :: a in aliases ==> Name(a) && aliases[a] != [] && forall v :: v in aliases[a] ==> v in stl
  }

  function ReqNames(d: Definition): set<string> { d.reqStl.Keys + d.reqLts.Keys + d.reqAliases.Keys }

  function SubNames(d: Definition): set<string> { d.subStl.Keys + d.subLts.Keys + d.subAliases.Keys }

  /** A level has a short and a long name, which lead back to it. */
  ghost predicate WellNamedLevel(d: Definition, n: nat)
    requires n in d.levelText
  {
    var s := d.levelText[n];
    && s != "" && s in d.levelOf && d.levelOf[s] == n && '/' !in s && IsUpper(s) && !IsLevelNumber(d, s)
    && s in d.levelStl && d.levelStl[s] != "" && d.levelStl[s] in d.levelLts && d.levelLts[d.levelStl[s]] == s
    && '/' !in d.levelStl[s] && IsUpper(d.levelStl[s]) && !IsLevelNumber(d, d.levelStl[s])
    && (d.levelStl[s] in d.levelOf ==> d.levelStl[s] == s)
  }

  ghost predicate WellFormedLevels(d: Definition) {
    && (forall s :: s in d.levelOf ==> d.levelOf[s] in d.levelText && s in d.levelStl)
    && (forall n :: n in d.levelText ==> WellNamedLevel(d, n))
    && (forall n :: n in d.levelLts ==> d.levelLts[n] in d.levelOf)
    && (forall a :: a in d.levelAliases ==> d.levelAliases[a] in d.levelOf)
    && (forall x :: x in d.params ==> d.params[x].requireLvl == 0 || d.params[x].requireLvl in d.levelText)
  }

  /** What a coherent configuration guarantees: names are upper-case, trimmed, free of '/', ','
      and "REL "; the kinds of items do not share names; a solitary display name belongs to one
      group; a required level exists; a required group is the short name of a group. */
  ghost predicate WellFormed(d: Definition) {
    && WellFormedLevels(d)
    && Bilingual(d.reqStl, d.reqLts, d.params)
    && Bilingual(d.groupStl, d.groupLts, d.params)
    && Bilingual(d.subStl, d.subLts, d.params)
    && WellNamedAliases(d.reqAliases, d.reqStl)
    && WellNamedAliases(d.groupAliases, d.groupStl)
    && WellNamedAliases(d.subAliases, d.subStl)
    && ReqNames(d) !! SubNames(d)
    && (forall a :: a in d.groupAliases && |d.groupAliases[a]| > 1 ==> a !in d.groupStl && a !in d.groupLts)
    && (forall a :: a in d.groupAliasOrder ==> a in d.groupAliases)
    && (forall x :: x in d.params && d.params[x].solitary.Some? ==>
          Name(d.params[x].solitary.value) && d.params[x].solitary.value !in ReqNames(d))
    && (forall g :: g in d.groupStl && d.params[g].solitary.Some? ==>
          var shown := d.params[g].solitary.value;
          shown in d.groupAliases && d.groupAliases[shown] == [g] && shown !in SubNames(d))
    && (forall x :: x in d.params && d.params[x].requireGroup.Some? ==> d.params[x].requireGroup.value in d.groupStl)
    && (forall g :: g in d.groupAuto ==> g in d.groupStl)
    && (forall s :: s in d.subAuto ==> s in d.subStl)
  }

  ghost predicate NoAutoSelect(d: Definition) {
    d.groupAuto == [] && d.subAuto == []
  }

  // ---------------------------------------------------------------- parsing

  datatype Parts = Parts(lvl: nat, req: set<string>, groups: set<string>, subgroups: set<string>)

  function LevelIndex(d: Definition, t: string): Result<nat> {
    if IsLevelNumber(d, t) then Invalid   // the table holds a name here: using it as a number raises
    else if t in d.levelOf then Valid(d.levelOf[t])
    else if t in d.levelLts && d.levelLts[t] in d.levelOf then Valid(d.levelOf[d.levelLts[t]])
    else if t in d.levelAliases && d.levelAliases[t] in d.levelOf then Valid(d.levelOf[d.levelAliases[t]])
    else Invalid
  }

  function Resolve(p: string, lts: map<string, string>, stl: map<string, string>, aliases: map<string, seq<string>>)
    : Option<set<string>>
  {
    if p in lts then Some({lts[p]})
    else if p in stl then Some({p})
    else if p in aliases then Some(Elems(aliases[p]))
    else None
  }

  function ReqOf(d: Definition, p: string): Option<set<string>> { Resolve(p, d.reqLts, d.reqStl, d.reqAliases) }

  function GroupOf(d: Definition, t: string): Option<set<string>> {
    Resolve(t, d.groupLts, d.groupStl, d.groupAliases)
  }

  function SubOf(d: Definition, p: string): Option<set<string>> { Resolve(p, d.subLts, d.subStl, d.subAliases) }

  /** The two `replace` calls on a REL marking. */
  function Clean(p: string): string { Delete(Delete(p, "REL TO "), "REL ") }

  function Tokens(p: string): set<string> { set t | t in Split(Clean(p), ',') :: Strip(t) }

  function Known(d: Definition, ts: set<string>): set<string> {
    set t, g | t in ts && GroupOf(d, t).Some? && g in GroupOf(d, t).value :: g
  }

  function Unknown(d: Definition, ts: set<string>): set<string> { set t | t in ts && GroupOf(d, t).None? }

  /** What the pieces of a marking were found to be; `bad` when one of them raises. */
  datatype Found = Found(
    req: set<string>, groups: set<string>, subgroups: set<string>, unknown: set<string>, bad: bool)

  function Meaning(d: Definition, p: string): Found {
    if ReqOf(d, p).Some? then Found(ReqOf(d, p).value, {}, {}, {}, false)
    else if StartsWith(p, "REL ") then Found({}, Known(d, Tokens(p)), {}, Unknown(d, Tokens(p)), false)
    else if SubOf(d, p).Some? then Found({}, {}, SubOf(d, p).value, {}, false)
    else if p in d.groupAliases && |d.groupAliases[p]| == 1 then Found({}, Elems(d.groupAliases[p]), {}, {}, false)
    else Found({}, {}, {}, {}, true)
  }

  ghost function Gather(d: Definition, ps: set<string>): Found {
    Found(
      set p, x | p in ps && x in Meaning(d, p).req :: x,
      set p, x | p in ps && x in Meaning(d, p).groups :: x,
      set p, x | p in ps && x in Meaning(d, p).subgroups :: x,
      set p, x | p in ps && x in Meaning(d, p).unknown :: x,
      exists p :: p in ps && Meaning(d, p).bad)
  }

  function RequiredGroups(d: Definition, subgroups: set<string>): set<string> {
    set s | s in subgroups && ParamsOf(d, s).requireGroup.Some? :: ParamsOf(d, s).requireGroup.value
  }

  /** No subgroup is limited to a group other than the ones selected. */
  predicate WithinLimits(d: Definition, subgroups: set<string>, groups: set<string>) {
    forall s :: s in subgroups && ParamsOf(d, s).limitedTo.Some? ==> groups <= {ParamsOf(d, s).limitedTo.value}
  }

  /** The options of `_get_classification_parts` other than the output format. */
  datatype Options = Options(getDynamic: bool, autoSelect: bool, ignoreUnused: bool)

  const STANDARD := Options(true, false, false)

  function Close(d: Definition, lvl: nat, f: Found, o: Options): Result<Parts> {
    var dynamic := d.dynamicGroups && o.getDynamic;
    var groups := f.groups + (if dynamic then f.unknown else {}) + RequiredGroups(d, f.subgroups);
    if f.bad || !WithinLimits(d, f.subgroups, groups) then Invalid
    else if !dynamic && f.unknown != {} && !o.ignoreUnused then Invalid
    else Valid(Parts(
      lvl,
      f.req,
      if o.autoSelect && groups != {} then groups + Elems(d.groupAuto) else groups,
      if o.autoSelect && f.subgroups != {} then f.subgroups + Elems(d.subAuto) else f.subgroups))
  }

  /** `_get_classification_parts`, by short names. */
  ghost function Parse(d: Definition, text: string, o: Options): Result<Parts> {
    var (lvl, remain) := Partition(Upper(text));
    match LevelIndex(d, lvl)
    case Invalid => Invalid
    case Valid(n) => Close(d, n, Gather(d, Pieces(remain)), o)
  }

  // ---------------------------------------------------------------- formats

  function ShownReq(d: Definition, long: bool, s: string): string {
    if long && s in d.reqStl then d.reqStl[s] else s
  }

  function ShownGroup(d: Definition, long: bool, s: string): string {
    if long && s in d.groupStl then d.groupStl[s] else s
  }

  function ShownSub(d: Definition, long: bool, s: string): string {
    if long && s in d.subStl then d.subStl[s] else s
  }

  function ShownReqs(d: Definition, long: bool, ss: set<string>): set<string> {
    set s | s in ss :: ShownReq(d, long, s)
  }

  function ShownGroups(d: Definition, long: bool, ss: set<string>): set<string> {
    set s | s in ss :: ShownGroup(d, long, s)
  }

  function ShownSubs(d: Definition, long: bool, ss: set<string>): set<string> {
    set s | s in ss :: ShownSub(d, long, s)
  }

  // ---------------------------------------------------------------- printing

  function MaxRequired(d: Definition, req: seq<string>): nat {
    if req == [] then 0
    else
      var rest := MaxRequired(d, req[1..]);
      if ParamsOf(d, req[0]).requireLvl > rest then ParamsOf(d, req[0]).requireLvl else rest
  }

  function Max(a: nat, b: nat): nat { if a >= b then a else b }

  function RequiredGroupItems(d: Definition, req: seq<string>): seq<string> {
    if req == [] then []
    else (if ParamsOf(d, req[0]).requiredGroup then [req[0]] else []) + RequiredGroupItems(d, req[1..])
  }

  /** Step 4: the groups the subgroups bring in, restarted by every limited subgroup. */
  function TempGroups(d: Definition, subgroups: seq<string>, acc: seq<string>): seq<string> {
    if subgroups == [] then acc
    else
      var p := ParamsOf(d, subgroups[0]);
      var added := if p.requireGroup.Some? then acc + [p.requireGroup.value] else acc;
      var kept := match p.limitedTo
                  case None => added
                  case Some(only) => if only in added then [only] else [];
      TempGroups(d, subgroups[1..], kept)
  }

  /** `groups_map_stl.get(g, g)` in the long format, `groups_map_lts.get(g, g)` in the short one. */
  function BroughtIn(d: Definition, long: bool, g: string): string {
    if long then (if g in d.groupStl then d.groupStl[g] else g)
    else (if g in d.groupLts then d.groupLts[g] else g)
  }

  function AutoSubs(d: Definition, long: bool): set<string> { ShownSubs(d, long, Elems(d.subAuto)) }

  function AutoGroups(d: Definition, long: bool): set<string> { ShownGroups(d, long, Elems(d.groupAuto)) }

  function SubsToShow(d: Definition, long: bool, skipAuto: bool, subgroups: seq<string>, hash: Hash): seq<string> {
    if subgroups != [] && d.subAuto != [] && !skipAuto then Sort(hash(Elems(subgroups) + AutoSubs(d, long)))
    else subgroups
  }

  /** Steps 4 and 5. */
  function GroupsToShow(d: Definition, long: bool, skipAuto: bool, groups: seq<string>, subs: seq<string>, hash: Hash)
    : seq<string>
  {
    var all := Elems(groups) + set g | g in TempGroups(d, subs, []) :: BroughtIn(d, long, g);
    if hash(all) != [] && d.groupAuto != [] && !skipAuto then Sort(hash(all + AutoGroups(d, long)))
    else hash(all)
  }

  /** Step 7: the aliases are tried in their configured order. */
  function FoldAlias(d: Definition, order: seq<string>, groups: seq<string>): seq<string> {
    if order == [] then groups
    else
      var values := if order[0] in d.groupAliases then d.groupAliases[order[0]] else [];
      FoldAlias(d, order[1..], if |values| > 1 && Sort(values) == groups then [order[0]] else groups)
  }

  function GroupText(d: Definition, long: bool, groups: seq<string>): string
    requires groups != []
  {
    if |groups| == 1 then
      var g := groups[0];
      var p := ParamsOf(d, g);
      if p.solitary.Some? && p.solitary.value != g then p.solitary.value else "REL TO " + g
    else
      var shown := if long then groups else FoldAlias(d, d.groupAliasOrder, groups);
      "REL TO " + Join(", ", Sort(shown))
  }

  function ReqSection(d: Definition, req: seq<string>, hash: Hash): string {
    var inGroup := RequiredGroupItems(d, req);
    var plain := hash(Elems(req) - Elems(inGroup));
    (if plain != [] then "//" + Join("/", plain) else "") +
    (if inGroup != [] then "//" + Join("/", Sort(inGroup)) else "")
  }

  function GroupSection(d: Definition, long: bool, inGroup: bool, groups: seq<string>): string {
    if groups == [] then "" else (if inGroup then "/" else "//") + GroupText(d, long, groups)
  }

  function SubSection(joined: bool, subs: seq<string>): string {
    if subs == [] then "" else (if joined then "/" else "//") + Join("/", Sort(subs))
  }

  function LevelName(d: Definition, long: bool, n: nat): Result<string> {
    if n !in d.levelText || d.levelText[n] == "" then Invalid
    else
      var s := d.levelText[n];
      if !long then Valid(s) else if s in d.levelStl then Valid(d.levelStl[s]) else Invalid
  }

  /** `_get_normalized_classification_text`: every list holds names of the given format. */
  function Print(d: Definition, lvl: nat, req: seq<string>, groups: seq<string>, subgroups: seq<string>,
                 long: bool, skipAuto: bool, hash: Hash): Result<string>
  {
    match LevelName(d, long, Max(lvl, MaxRequired(d, req)))
    case Invalid => Invalid
    case Valid(level) =>
      var inGroup := RequiredGroupItems(d, req) != [];
      var subs := SubsToShow(d, long, skipAuto, subgroups, hash);
      var shown := GroupsToShow(d, long, skipAuto, groups, subs, hash);
      Valid(level + (ReqSection(d, req, hash) + GroupSection(d, long, inGroup, shown)
                     + SubSection(inGroup || shown != [], subs)))
  }
}
