/** The second half of `is_valid`: a marking must consist of a level and at most two more sections, the last of which
    may name groups. Every normalized marking has that shape. */
module Validity {
  import opened Strings
  import opened Marking
  import opened MarkingText
  import opened MarkingRoundTrip
  import opened Normalization
  import Access
  import opened Engine
  import opened Rereading

  // ---------------------------------------------------------------- what is checked

  /** `s.split("//")`. */
  function Sections(s: string): (parts: seq<string>)
    ensures |parts| >= 1
  {
    if |s| < 2 then [s]
    else if s[0] == '/' && s[1] == '/' then [""] + Sections(s[2..])
    else var rest := Sections(s[1..]); [[s[0]] + rest[0]] + rest[1..]
  }

  predicate LevelKnown(d: Definition, t: string) { t in d.levelAliases || t in d.levelLts || t in d.levelStl }

  predicate ReqKnown(d: Definition, t: string) { t in d.reqAliases || t in d.reqStl || t in d.reqLts }

  predicate GroupKnown(d: Definition, t: string) {
    || t in d.groupAliases || t in d.groupStl || t in d.groupLts
    || t in d.subAliases || t in d.subStl || t in d.subLts
  }

  /** The place of the last item with a comma, or the length. */
  function LastComma(items: seq<string>): (k: nat)
    ensures k <= |items|
  {
    if items == [] then 0
    else if ',' in items[|items| - 1] then |items| - 1
    else var k := LastComma(items[..|items| - 1]); if k == |items| - 1 then |items| else k
  }

  function StripAll(ts: seq<string>): seq<string> {
    seq(|ts|, i requires 0 <= i < |ts| => Strip(ts[i]))
  }

  /** The items of a section; a list of groups is taken apart and moved to the end. */
  function Items(section: string): seq<string> {
    var items := Split(section, '/');
    var k := LastComma(items);
    if k == |items| then items else items[..k] + items[k + 1..] + StripAll(Split(items[k], ','))
  }

  predicate AllReq(d: Definition, items: seq<string>) {
    forall i :: 0 <= i < |items| ==> ReqKnown(d, items[i])
  }

  /** From the first item on that is no required one, only groups and subgroups; dynamic groups can be anything. */
  predicate ThenGroups(d: Definition, items: seq<string>) {
    forall i, j :: 0 <= i <= j < |items| && !ReqKnown(d, items[i]) ==> d.dynamicGroups || GroupKnown(d, items[j])
  }

  /** A section that passes, and one that names required items only. */
  predicate Passes(d: Definition, section: string) { ThenGroups(d, Items(section)) }

  predicate Plain(d: Definition, section: string) { AllReq(d, Items(section)) }

  predicate Shaped(d: Definition, parts: seq<string>)
    requires |parts| >= 1
  {
    var rest := parts[1..];
    && |parts| <= 3 && LevelKnown(d, parts[0])
    && AllPass(d, rest) && (rest != [] ==> AllPlain(d, rest[..|rest| - 1]))
  }

  predicate AllPass(d: Definition, parts: seq<string>) {
    forall k :: 0 <= k < |parts| ==> Passes(d, parts[k])
  }

  predicate AllPlain(d: Definition, parts: seq<string>) {
    forall k :: 0 <= k < |parts| ==> Plain(d, parts[k])
  }

  // ---------------------------------------------------------------- the loops

  method FindComma(items: seq<string>) returns (k: nat)
    ensures k == LastComma(items)
  {
    k := |items|;
    for i := 0 to |items|
      invariant k <= |items|
      invariant if k == |items| then LastComma(items[..i]) == i else LastComma(items[..i]) == k < i
    {
      assert items[..i + 1][..i] == items[..i];
      if ',' in items[i] {
        k := i;
      }
    }
    assert items[..|items|] == items;
  }

  lemma AllReqMore(d: Definition, before: seq<string>, item: string)
    ensures AllReq(d, before + [item]) <==> AllReq(d, before) && ReqKnown(d, item)
  {
    var all := before + [item];
    assert all[|before|] == item;
    if AllReq(d, all) {
      forall i | 0 <= i < |before| ensures ReqKnown(d, before[i]) { assert all[i] == before[i]; }
    }
  }

  lemma ThenGroupsMore(d: Definition, before: seq<string>, item: string)
    requires ThenGroups(d, before) && (AllReq(d, before + [item]) || d.dynamicGroups || GroupKnown(d, item))
    ensures ThenGroups(d, before + [item])
  {
    var all := before + [item];
    forall i, j | 0 <= i <= j < |all| && !ReqKnown(d, all[i]) ensures d.dynamicGroups || GroupKnown(d, all[j]) {
      if j < |before| {
        assert all[i] == before[i] && all[j] == before[j];
      }
    }
  }

  lemma NotThenGroups(d: Definition, items: seq<string>, i: nat)
    requires i < |items| && !AllReq(d, items[..i + 1]) && !d.dynamicGroups && !GroupKnown(d, items[i])
    ensures !ThenGroups(d, items)
  {
    var k :| 0 <= k < i + 1 && !ReqKnown(d, items[..i + 1][k]);
    assert items[..i + 1][k] == items[k];
  }

  /** The items of one section, one by one; `ok` unless one is unknown, `groups` when groups have begun. */
  method CheckItems(d: Definition, items: seq<string>) returns (ok: bool, groups: bool)
    ensures ok <==> ThenGroups(d, items)
    ensures ok ==> (groups <==> !AllReq(d, items))
  {
    groups := false;
    for i := 0 to |items|
      invariant ThenGroups(d, items[..i]) && (groups <==> !AllReq(d, items[..i]))
    {
      assert items[..i + 1] == items[..i] + [items[i]];
      AllReqMore(d, items[..i], items[i]);
      if !groups && !ReqKnown(d, items[i]) {
        groups := true;
      }
      if groups && !d.dynamicGroups && !GroupKnown(d, items[i]) {
        NotThenGroups(d, items, i);
        return false, groups;
      }
      ThenGroupsMore(d, items[..i], items[i]);
    }
    assert items[..|items|] == items;
    return true, groups;
  }

  method CheckSection(d: Definition, section: string) returns (ok: bool, groups: bool)
    ensures ok <==> Passes(d, section)
    ensures ok ==> (groups <==> !Plain(d, section))
  {
    var items := Split(section, '/');
    var comma := FindComma(items);
    if comma < |items| {
      items := items[..comma] + items[comma + 1..] + StripAll(Split(items[comma], ','));
    }
    ok, groups := CheckItems(d, items);
  }

  lemma PassOf(d: Definition, parts: seq<string>, k: nat)
    requires k < |parts| && AllPass(d, parts)
    ensures Passes(d, parts[k])
  {
  }

  lemma PassOne(d: Definition, before: seq<string>, part: string)
    requires AllPass(d, before) && Passes(d, part)
    ensures AllPass(d, before + [part])
  {
    forall k | 0 <= k < |before + [part]| ensures Passes(d, (before + [part])[k]) {
      if k < |before| { PassOf(d, before, k); }
    }
  }

  lemma PlainOf(d: Definition, parts: seq<string>, k: nat)
    requires k < |parts| && AllPlain(d, parts)
    ensures Plain(d, parts[k])
  {
  }

  lemma PlainOne(d: Definition, before: seq<string>, part: string)
    requires AllPlain(d, before) && Plain(d, part)
    ensures AllPlain(d, before + [part])
  {
    forall k | 0 <= k < |before + [part]| ensures Plain(d, (before + [part])[k]) {
      if k < |before| { PlainOf(d, before, k); }
    }
  }

  lemma PlainInit(d: Definition, parts: seq<string>)
    requires parts != [] && AllPlain(d, parts)
    ensures AllPlain(d, parts[..|parts| - 1])
  {
    var init := parts[..|parts| - 1];
    forall k | 0 <= k < |init| ensures Plain(d, init[k]) {
      PlainOf(d, parts, k);
    }
  }

  /** The sections after the level, one by one. */
  method CheckSections(d: Definition, parts: seq<string>) returns (ok: bool)
    ensures ok <==> AllPass(d, parts) && (parts != [] ==> AllPlain(d, parts[..|parts| - 1]))
  {
    var groups := false;
    for k := 0 to |parts|
      invariant AllPass(d, parts[..k])
      invariant if groups then k > 0 && AllPlain(d, parts[..k - 1]) && !Plain(d, parts[k - 1])
                else AllPlain(d, parts[..k])
    {
      if groups {
        if AllPlain(d, parts[..|parts| - 1]) { PlainOf(d, parts[..|parts| - 1], k - 1); }
        return false;
      }
      assert parts[..k + 1] == parts[..k] + [parts[k]];
      var good: bool;
      good, groups := CheckSection(d, parts[k]);
      if !good {
        if AllPass(d, parts) { PassOf(d, parts, k); }
        return false;
      }
      PassOne(d, parts[..k], parts[k]);
      if !groups { PlainOne(d, parts[..k], parts[k]); }
    }
    assert parts[..|parts|] == parts;
    if parts != [] && !groups { PlainInit(d, parts); }
    return true;
  }

  method WellShaped(d: Definition, text: string) returns (ok: bool)
    ensures ok <==> Shaped(d, Sections(Clean(text)))
  {
    var parts := Sections(Clean(text));
    if |parts| > 3 {
      return false;
    }
    if !LevelKnown(d, parts[0]) {
      return false;
    }
    ok := CheckSections(d, parts[1..]);
  }

  // ---------------------------------------------------------------- texts of sections

  predicate NoPair(s: string) {
    forall i :: 0 <= i < |s| - 1 ==> !(s[i] == '/' && s[i + 1] == '/')
  }

  /** A text that `//` does not occur in, and that does not end in a slash. */
  predicate Flat(s: string) {
    NoPair(s) && (s != "" ==> s[|s| - 1] != '/')
  }

  lemma {:induction false} SectionsAt(a: string, b: string)
    requires Flat(a)
    ensures Sections(a + "//" + b) == [a] + Sections(b)
  {
    var s := a + "//" + b;
    if a == "" {
      assert s[2..] == b;
    } else {
      assert s[1..] == a[1..] + "//" + b;
      assert s[0] == a[0] && (|a| > 1 ==> s[1] == a[1]);
      SectionsAt(a[1..], b);
      assert [a[0]] + a[1..] == a;
    }
  }

  lemma {:induction false} SectionsOfOne(a: string)
    requires NoPair(a)
    ensures Sections(a) == [a]
  {
    if |a| >= 2 {
      SectionsOfOne(a[1..]);
      assert [a[0]] + a[1..] == a;
    }
  }

  /** Names that can stand between slashes. */
  predicate Slots(names: seq<string>) {
    forall n :: n in names ==> n != "" && '/' !in n
  }

  lemma FlatMore(n: string, rest: string)
    requires n != "" && '/' !in n && Flat(rest) && rest != "" && rest[0] != '/'
    ensures Flat(n + "/" + rest) && n + "/" + rest != "" && (n + "/" + rest)[0] != '/'
  {
    var s := n + "/" + rest;
    forall i | 0 <= i < |s| - 1 ensures !(s[i] == '/' && s[i + 1] == '/') {
      if i < |n| {
        assert s[i] == n[i] && n[i] in n;
      } else if i > |n| {
        assert s[i] == rest[i - |n| - 1] && s[i + 1] == rest[i - |n|];
      } else {
        assert s[i + 1] == rest[0];
      }
    }
    assert s[0] == n[0] && n[0] in n;
    assert s[|s| - 1] == rest[|rest| - 1];
  }

  lemma {:induction false} JoinFlat(names: seq<string>)
    requires names != [] && Slots(names)
    ensures Flat(Join("/", names)) && Join("/", names) != "" && Join("/", names)[0] != '/'
  {
    assert names[0] in names;
    if |names| == 1 {
      forall i | 0 <= i < |names[0]| ensures names[0][i] != '/' { assert names[0][i] in names[0]; }
    } else {
      assert forall n :: n in names[1..] ==> n in names;
      JoinFlat(names[1..]);
      FlatMore(names[0], Join("/", names[1..]));
    }
  }

  lemma {:induction false} SplitJoin(names: seq<string>)
    requires names != [] && forall n :: n in names ==> '/' !in n
    ensures Split(Join("/", names), '/') == names
  {
    assert names[0] in names;
    SplitNone(names[0], '/');
    if |names| > 1 {
      forall n | n in names[1..] ensures '/' !in n { assert n in names; }
      SplitJoin(names[1..]);
      SplitConcat(names[0], Join("/", names[1..]), '/');
      assert names[0] + ['/'] + Join("/", names[1..]) == Join("/", names);
      assert names == [names[0]] + names[1..];
    } else {
      assert names == [names[0]];
    }
  }

  lemma {:induction false} JoinConcat(a: seq<string>, b: seq<string>)
    requires a != [] && b != []
    ensures Join("/", a + b) == Join("/", a) + "/" + Join("/", b)
  {
    assert (a + b)[1..] == a[1..] + b;
    if |a| > 1 {
      JoinConcat(a[1..], b);
      assert Join("/", a) == a[0] + "/" + Join("/", a[1..]);
    }
  }

  lemma CleanSlash(a: string, b: string)
    ensures Clean(a + "/" + b) == Clean(a) + "/" + Clean(b)
  {
    var to := "REL TO ";
    DeleteAcross(a, '/', b, to);
    DeleteAcross(Delete(a, to), '/', Delete(b, to), "REL ");
    assert a + ['/'] + b == a + "/" + b;
    assert Delete(a, to) + ['/'] + Delete(b, to) == Delete(a, to) + "/" + Delete(b, to);
  }

  lemma {:induction false} CleanJoin(names: seq<string>)
    ensures Clean(Join("/", names)) == Join("/", CleanEach(names))
  {
    if |names| > 1 {
      CleanJoin(names[1..]);
      CleanSlash(names[0], Join("/", names[1..]));
      assert CleanEach(names)[1..] == CleanEach(names[1..]);
    } else if |names| == 1 {
      assert CleanEach(names) == [Clean(names[0])];
    }
  }

  lemma Associate(a: string, b: string, c: string)
    ensures a + b + c == a + (b + c)
  {
  }

  lemma TwoSlashes(a: string, b: string)
    ensures a + "/" + ("" + "/" + b) == a + ("//" + b)
  {
    assert "" + "/" + b == "/" + b;
    Associate(a, "/", "/" + b);
    assert "/" + ("/" + b) == "//" + b;
  }

  lemma CleanSection(a: string, names: seq<string>)
    ensures Clean(a + Section("//", names)) == Clean(a) + Section("//", CleanEach(names))
  {
    if names == [] {
      assert CleanEach(names) == [];
      assert a + "" == a && Clean(a) + "" == Clean(a);
    } else {
      var text := Join("/", names);
      CleanJoin(names);
      CleanSlash("", text);
      CleanSlash(a, "" + "/" + text);
      TwoSlashes(a, text);
      TwoSlashes(Clean(a), Join("/", CleanEach(names)));
    }
  }

  /** The sections of a level followed by at most two lists of names. */
  function SectionList(level: string, a: seq<string>, b: seq<string>): seq<string> {
    [level] + (if a == [] then [] else [Join("/", a)]) + (if b == [] then [] else [Join("/", b)])
  }

  lemma SectionsBefore(first: string, text: string, rest: string)
    requires Flat(first)
    ensures Sections(first + ("//" + text) + rest) == [first] + Sections(text + rest)
  {
    SectionsAt(first, text + rest);
    Associate(first, "//", text);
    Associate(first + "//", text, rest);
  }

  lemma SectionsOfList(first: string, b: seq<string>)
    requires Flat(first) && Slots(b)
    ensures Sections(first + Section("//", b)) == [first] + (if b == [] then [] else [Join("/", b)])
  {
    if b == [] {
      SectionsOfOne(first);
      assert first + "" == first;
    } else {
      var text := Join("/", b);
      JoinFlat(b);
      SectionsOfOne(text);
      SectionsBefore(first, text, "");
      assert first + ("//" + text) + "" == first + ("//" + text) && text + "" == text;
    }
  }

  lemma SectionsOfLists(level: string, a: seq<string>, b: seq<string>)
    requires Flat(level) && Slots(a) && Slots(b)
    ensures Sections(level + Section("//", a) + Section("//", b)) == SectionList(level, a, b)
  {
    if a == [] {
      SectionsOfList(level, b);
      assert level + "" == level;
    } else {
      JoinFlat(a);
      SectionsOfList(Join("/", a), b);
      SectionsBefore(level, Join("/", a), Section("//", b));
    }
  }

  // ---------------------------------------------------------------- the items of a section of names

  predicate NoCommas(names: seq<string>) {
    forall n :: n in names ==> ',' !in n
  }

  lemma {:induction false} NoLastComma(items: seq<string>)
    requires NoCommas(items)
    ensures LastComma(items) == |items|
  {
    if items != [] {
      assert items[|items| - 1] in items;
      NoLastComma(items[..|items| - 1]);
    }
  }

  lemma {:induction false} LastCommaAt(a: seq<string>, x: string, b: seq<string>)
    requires ',' in x && NoCommas(b)
    ensures LastComma(a + [x] + b) == |a|
  {
    var items := a + [x] + b;
    if b == [] {
      assert items[|items| - 1] == x;
    } else {
      assert items[|items| - 1] == b[|b| - 1] && b[|b| - 1] in b;
      assert items[..|items| - 1] == a + [x] + b[..|b| - 1];
      LastCommaAt(a, x, b[..|b| - 1]);
    }
  }

  lemma ItemsOfNames(names: seq<string>)
    requires names != [] && Slots(names) && NoCommas(names)
    ensures Items(Join("/", names)) == names
  {
    SplitJoin(names);
    NoLastComma(names);
  }

  lemma ItemsOfList(a: seq<string>, x: string, b: seq<string>)
    requires Slots(a + [x] + b) && ',' in x && NoCommas(b)
    ensures Items(Join("/", a + [x] + b)) == a + b + StripAll(Split(x, ','))
  {
    var names := a + [x] + b;
    SplitJoin(names);
    LastCommaAt(a, x, b);
    assert names[..|a|] == a && names[|a| + 1..] == b && names[|a|] == x;
  }

  lemma ReqThenGroups(d: Definition, a: seq<string>, b: seq<string>)
    requires AllReq(d, a) && forall n :: n in b ==> GroupKnown(d, n)
    ensures ThenGroups(d, a + b)
  {
    forall i, j | 0 <= i <= j < |a + b| && !ReqKnown(d, (a + b)[i]) ensures GroupKnown(d, (a + b)[j]) {
      assert j >= |a| && (a + b)[j] in b;
    }
  }

  // ---------------------------------------------------------------- a printed marking as sections

  lemma SectionMore(a: seq<string>, b: seq<string>)
    ensures Section("//", a) + (if b == [] then "" else (if a != [] then "/" else "//") + Join("/", b))
            == Section("//", a + b)
  {
    if a == [] {
      assert a + b == b;
    } else if b == [] {
      assert a + b == a;
    } else {
      JoinConcat(a, b);
      Associate("//", Join("/", a), "/" + Join("/", b));
      Associate(Join("/", a), "/", Join("/", b));
    }
  }

  function GroupNames(d: Definition, long: bool, shown: seq<string>): seq<string> {
    if shown == [] then [] else [GroupText(d, long, shown)]
  }

  /** The required items shown among the groups, the group marking, and the subgroups. */
  function LastNames(d: Definition, long: bool, req: seq<string>, shown: seq<string>, subs: seq<string>): seq<string> {
    Sort(RequiredGroupItems(d, req)) + GroupNames(d, long, shown) + Sort(subs)
  }

  function PlainNames(d: Definition, req: seq<string>, hash: Hash): seq<string> {
    hash(Elems(req) - Elems(RequiredGroupItems(d, req)))
  }

  lemma TailIsSections(d: Definition, long: bool, req: seq<string>, shown: seq<string>, subs: seq<string>, hash: Hash)
    ensures Tail(d, long, req, shown, subs, hash)
            == Section("//", PlainNames(d, req, hash)) + Section("//", LastNames(d, long, req, shown, subs))
  {
    var inGroup := RequiredGroupItems(d, req);
    var plain, a, g := PlainNames(d, req, hash), Sort(inGroup), GroupNames(d, long, shown);
    ElemsSort(inGroup);
    ElemsSort(subs);
    SectionMore(a, g);
    SectionMore(a + g, Sort(subs));
    var first := Section("//", plain);
    assert ReqSection(d, req, hash) == first + Section("//", a);
    assert GroupSection(d, long, inGroup != [], shown) == if g == [] then ""
           else (if a != [] then "/" else "//") + Join("/", g);
    assert SubSection(inGroup != [] || shown != [], subs)
        == if Sort(subs) == [] then "" else (if a + g != [] then "/" else "//") + Join("/", Sort(subs));
    Associate(first, Section("//", a), GroupSection(d, long, inGroup != [], shown));
    Associate(first, Section("//", a + g), SubSection(inGroup != [] || shown != [], subs));
  }

  // ---------------------------------------------------------------- the cleaned group marking

  /** A group's name as it stands in a list. */
  ghost predicate Listable(n: string) {
    ',' !in n && '/' !in n && Strip(n) == n && !Contains(n, "REL ")
  }

  lemma CleanEachClean(names: seq<string>)
    requires forall n :: n in names ==> Clean(n) == n
    ensures CleanEach(names) == names
  {
    forall i | 0 <= i < |names| ensures CleanEach(names)[i] == names[i] {
      assert names[i] in names;
    }
  }

  lemma ListCleaned(names: seq<string>)
    requires names != [] && forall n :: n in names ==> Listable(n)
    ensures Clean("REL TO " + Join(", ", names)) == Join(", ", names)
    ensures '/' !in Join(", ", names)
  {
    forall n | n in names ensures Clean(n) == n {
      CleanFacts(n);
    }
    CleanOfList(names);
    CleanEachClean(names);
    JoinChars(", ", names, '/');
  }

  lemma CommaInList(names: seq<string>)
    requires |names| > 1
    ensures ',' in Join(", ", names)
  {
    var rest := Join(", ", names[1..]);
    assert (names[0] + ", " + rest)[|names[0]|] == ',';
  }

  lemma StrippedPart(parts: seq<string>, t: string) returns (p: string)
    requires t in StripAll(parts)
    ensures p in parts && t == Strip(p)
  {
    var i :| 0 <= i < |parts| && t == Strip(parts[i]);
    p := parts[i];
  }

  lemma ListSplit(names: seq<string>, t: string)
    requires names != [] && (forall n :: n in names ==> Listable(n)) && t in StripAll(Split(Join(", ", names), ','))
    ensures t in names
  {
    var text := Join(", ", names);
    SplitJoinStrip(names);
    var p := StrippedPart(Split(text, ','), t);
    var stripped := set x | x in Split(text, ',') :: Strip(x);
    assert Strip(p) in stripped;
    var n :| n in names && t == Strip(n);
  }

  /** What is known of a cleaned group marking: it can stand between slashes, and names groups only. */
  ghost predicate Readable(d: Definition, text: string) {
    if ',' in text then forall t :: t in StripAll(Split(text, ',')) ==> GroupKnown(d, t) else GroupKnown(d, text)
  }

  lemma ShownIsListable(d: Definition, long: bool, g: string)
    requires WellFormed(d) && g in d.groupStl
    ensures Listable(ShownGroup(d, long, g)) && GroupKnown(d, ShownGroup(d, long, g))
  {
    ShownGroupFacts(d, long, g);
  }

  lemma OneGroupCleaned(d: Definition, long: bool, g: string)
    requires WellFormed(d) && g in d.groupStl
    ensures Readable(d, Clean(GroupText(d, long, [ShownGroup(d, long, g)])))
  {
    var n := ShownGroup(d, long, g);
    ShownIsListable(d, long, g);
    ShownGroupFacts(d, long, g);
    var p := ParamsOf(d, n);
    if p.solitary.Some? && p.solitary.value != n {
      DisplayNameCleaned(d, g);
    } else {
      NameCleaned(d, n);
    }
  }

  lemma NameCleaned(d: Definition, n: string)
    requires Listable(n) && GroupKnown(d, n)
    ensures Readable(d, Clean("REL TO " + n))
  {
    ManyCleaned(d, [n]);
  }

  lemma DisplayNameCleaned(d: Definition, g: string)
    requires WellFormed(d) && g in d.groupStl && d.params[g].solitary.Some?
    ensures Readable(d, Clean(d.params[g].solitary.value))
  {
    CleanFacts(d.params[g].solitary.value);
  }

  lemma ManyCleaned(d: Definition, names: seq<string>)
    requires names != [] && (forall n :: n in names ==> Listable(n) && GroupKnown(d, n))
    ensures Readable(d, Clean("REL TO " + Join(", ", names)))
  {
    ListCleaned(names);
    if |names| > 1 {
      CommaInList(names);
      forall t | t in StripAll(Split(Join(", ", names), ',')) ensures t in names {
        ListSplit(names, t);
      }
    } else {
      assert names[0] in names;
    }
  }

  lemma AliasCleaned(d: Definition, a: string)
    requires WellFormed(d) && a in d.groupAliases
    ensures Readable(d, Clean("REL TO " + Join(", ", Sort([a]))))
  {
    AliasIsName(d, a);
    OneToken(a);
    StripTrimmed(a);
    ManyCleaned(d, [a]);
  }

  /** A marking of configured groups names groups. */
  lemma GroupCleaned(d: Definition, long: bool, gs: set<string>, shown: seq<string>)
    requires WellFormed(d) && Shows(d, long, gs, shown) && shown != [] && gs <= d.groupStl.Keys
    ensures Readable(d, Clean(GroupText(d, long, shown)))
  {
    if |shown| == 1 {
      var g := OneShown(d, long, gs, shown);
      assert g in gs;
      OneGroupCleaned(d, long, g);
    } else {
      var listed := if long then shown else FoldAlias(d, d.groupAliasOrder, shown);
      if listed == shown {
        ShownCleaned(d, long, gs, shown);
      } else {
        FoldAliasFacts(d, d.groupAliasOrder, shown);
        var a :| a in d.groupAliasOrder && listed == [a];
        AliasCleaned(d, a);
      }
    }
  }

  lemma ShownCleaned(d: Definition, long: bool, gs: set<string>, shown: seq<string>)
    requires WellFormed(d) && Elems(shown) == ShownGroups(d, long, gs) && shown != [] && gs <= d.groupStl.Keys
    ensures Readable(d, Clean("REL TO " + Join(", ", Sort(shown))))
  {
    ElemsSort(shown);
    forall n | n in Sort(shown) ensures Listable(n) && GroupKnown(d, n) {
      assert n in Elems(Sort(shown));
      var g :| g in gs && n == ShownGroup(d, long, g);
      ShownIsListable(d, long, g);
    }
    ManyCleaned(d, Sort(shown));
  }

  // ---------------------------------------------------------------- a normalized marking has the shape

  /** Level names do not hold "REL " either. */
  ghost predicate CleanLevels(d: Definition) {
    forall s :: s in d.levelStl ==> !Contains(s, "REL ") && !Contains(d.levelStl[s], "REL ")
  }

  /** Names that come through cleaning and splitting as they are. */
  ghost predicate Bare(names: seq<string>) {
    Slots(names) && NoCommas(names) && forall n :: n in names ==> Clean(n) == n
  }

  lemma NameIsBare(n: string)
    requires Name(n)
    ensures n != "" && '/' !in n && ',' !in n && Clean(n) == n
  {
    CleanFacts(n);
  }

  lemma ReqNamesAreBare(d: Definition, long: bool, rs: set<string>, names: seq<string>)
    requires Bilingual(d.reqStl, d.reqLts, d.params) && rs <= d.reqStl.Keys && Elems(names) <= ShownReqs(d, long, rs)
    ensures Bare(names) && AllReq(d, names)
  {
    forall n | n in names ensures Name(n) && ReqKnown(d, n) {
      assert n in Elems(names);
      var r :| r in rs && n == ShownReq(d, long, r);
    }
    forall n | n in names ensures n != "" && '/' !in n && ',' !in n && Clean(n) == n {
      NameIsBare(n);
    }
  }

  lemma SubNamesAreBare(d: Definition, long: bool, ss: set<string>, names: seq<string>)
    requires Bilingual(d.subStl, d.subLts, d.params) && ss <= d.subStl.Keys && Elems(names) <= ShownSubs(d, long, ss)
    ensures Bare(names) && forall n :: n in names ==> GroupKnown(d, n)
  {
    forall n | n in names ensures Name(n) && GroupKnown(d, n) {
      assert n in Elems(names);
      var s :| s in ss && n == ShownSub(d, long, s);
    }
    forall n | n in names ensures n != "" && '/' !in n && ',' !in n && Clean(n) == n {
      NameIsBare(n);
    }
  }

  lemma CleanEachConcat(a: seq<string>, b: seq<string>)
    ensures CleanEach(a + b) == CleanEach(a) + CleanEach(b)
  {
  }

  lemma DynamicPasses(d: Definition, section: string)
    requires d.dynamicGroups
    ensures Passes(d, section)
  {
  }

  lemma ListPasses(d: Definition, a: seq<string>, x: string, b: seq<string>)
    requires Slots(a + [x] + b) && ',' in x && NoCommas(b) && AllReq(d, a)
    requires Readable(d, x) && forall n :: n in b ==> GroupKnown(d, n)
    ensures Passes(d, Join("/", a + [x] + b))
  {
    ItemsOfList(a, x, b);
    ListThenGroups(d, a, b, StripAll(Split(x, ',')));
  }

  lemma ListThenGroups(d: Definition, a: seq<string>, b: seq<string>, more: seq<string>)
    requires AllReq(d, a) && (forall n :: n in b ==> GroupKnown(d, n)) && (forall n :: n in more ==> GroupKnown(d, n))
    ensures ThenGroups(d, a + b + more)
  {
    assert a + b + more == a + (b + more);
    ReqThenGroups(d, a, b + more);
  }

  lemma NamesPass(d: Definition, a: seq<string>, b: seq<string>)
    requires Slots(a + b) && NoCommas(a + b) && AllReq(d, a) && a + b != [] && forall n :: n in b ==> GroupKnown(d, n)
    ensures Passes(d, Join("/", a + b))
  {
    ItemsOfNames(a + b);
    ReqThenGroups(d, a, b);
  }

  lemma NoCommasConcat(a: seq<string>, b: seq<string>)
    requires NoCommas(a) && NoCommas(b)
    ensures NoCommas(a + b)
  {
  }

  /** The last section: required items, at most one group marking, subgroups. */
  lemma LastPasses(d: Definition, a: seq<string>, g: seq<string>, b: seq<string>)
    requires |g| <= 1 && Slots(a + g + b) && NoCommas(a) && NoCommas(b) && AllReq(d, a) && a + g + b != []
    requires d.dynamicGroups || ((forall n :: n in b ==> GroupKnown(d, n)) && (g != [] ==> Readable(d, g[0])))
    ensures Passes(d, Join("/", a + g + b))
  {
    if d.dynamicGroups {
      DynamicPasses(d, Join("/", a + g + b));
    } else if g == [] {
      NoGroupPasses(d, a, g, b);
    } else {
      assert g == [g[0]];
      OneGroupPasses(d, a, g[0], b);
    }
  }

  lemma NoGroupPasses(d: Definition, a: seq<string>, g: seq<string>, b: seq<string>)
    requires g == [] && Slots(a + g + b) && NoCommas(a) && NoCommas(b) && AllReq(d, a) && a + g + b != []
    requires forall n :: n in b ==> GroupKnown(d, n)
    ensures Passes(d, Join("/", a + g + b))
  {
    assert a + g + b == a + b;
    NoCommasConcat(a, b);
    NamesPass(d, a, b);
  }

  lemma OneGroupPasses(d: Definition, a: seq<string>, x: string, b: seq<string>)
    requires Slots(a + [x] + b) && NoCommas(a) && NoCommas(b) && AllReq(d, a)
    requires Readable(d, x) && forall n :: n in b ==> GroupKnown(d, n)
    ensures Passes(d, Join("/", a + [x] + b))
  {
    if ',' in x {
      ListPasses(d, a, x, b);
    } else {
      assert a + [x] + b == a + ([x] + b);
      NoCommasConcat([x], b);
      NoCommasConcat(a, [x] + b);
      NamesPass(d, a, [x] + b);
    }
  }

  lemma ShapedLists(d: Definition, level: string, plain: seq<string>, last: seq<string>)
    requires LevelKnown(d, level) && Bare(plain) && AllReq(d, plain)
    requires last != [] ==> Passes(d, Join("/", last))
    ensures Shaped(d, SectionList(level, plain, last))
  {
    var rest := (if plain == [] then [] else [Join("/", plain)]) + (if last == [] then [] else [Join("/", last)]);
    assert SectionList(level, plain, last)[1..] == rest;
    if plain != [] {
      ItemsOfNames(plain);
      assert plain + [] == plain;
      ReqThenGroups(d, plain, []);
    }
    OneOrTwo(d, rest, plain, last);
  }

  lemma OneOrTwo(d: Definition, rest: seq<string>, plain: seq<string>, last: seq<string>)
    requires rest == (if plain == [] then [] else [Join("/", plain)]) + (if last == [] then [] else [Join("/", last)])
    requires plain != [] ==> Passes(d, Join("/", plain)) && Plain(d, Join("/", plain))
    requires last != [] ==> Passes(d, Join("/", last))
    ensures AllPass(d, rest) && (rest != [] ==> AllPlain(d, rest[..|rest| - 1]))
  {
  }

  lemma LevelIsFlat(d: Definition, long: bool, n: nat)
    requires WellFormedLevels(d) && CleanLevels(d) && LevelName(d, long, n).Valid?
    requires '/' !in LevelName(d, long, n).value
    ensures var t := LevelName(d, long, n).value; Flat(t) && Clean(t) == t && LevelKnown(d, t)
  {
    var t := LevelName(d, long, n).value;
    CleanFacts(t);
    assert t in d.levelStl || t in d.levelLts;
  }

  lemma CleanedText(level: string, plain: seq<string>, last: seq<string>)
    requires Clean(level) == level && Bare(plain)
    ensures Clean(level + Section("//", plain) + Section("//", last))
            == level + Section("//", plain) + Section("//", CleanEach(last))
  {
    CleanSection(level, plain);
    CleanEachClean(plain);
    CleanSection(level + Section("//", plain), last);
  }

  lemma CleanOne(x: string)
    ensures CleanEach([x]) == [Clean(x)]
    ensures Clean(x) != "" && '/' !in Clean(x) ==> Slots([Clean(x)])
  {
  }

  lemma EndsInText(x: string)
    requires x != "" && !IsSpace(x[|x| - 1])
    ensures Clean(x) != ""
  {
    var to, rel := "REL TO ", "REL ";
    assert to[6] == ' ' && rel[3] == ' ';
    DeleteKeepsLast(x, to);
    DeleteKeepsLast(Delete(x, to), rel);
  }

  lemma HoldsComma(x: string)
    requires ',' in x
    ensures Clean(x) != ""
  {
    DeleteKeeps(x, "REL TO ", ',');
    DeleteKeeps(Delete(x, "REL TO "), "REL ", ',');
  }

  lemma EndsInName(to: string, n: string)
    requires n != "" && Trimmed(n)
    ensures Clean(to + n) != ""
  {
    assert (to + n)[|to + n| - 1] == n[|n| - 1];
    EndsInText(to + n);
  }

  lemma OneGroupLeaves(d: Definition, long: bool, g: string)
    requires WellFormed(d) && Token(d, g) && (g != "" || Collides(d, g))
    ensures Clean(GroupText(d, long, [ShownGroup(d, long, g)])) != ""
  {
    var n := ShownGroup(d, long, g);
    ShownGroupFacts(d, long, g);
    var p := ParamsOf(d, n);
    if p.solitary.Some? && p.solitary.value != n {
      DisplayNameLeaves(d, n, p.solitary.value);
    } else {
      StripFacts(n);
      EndsInName("REL TO ", n);
    }
  }

  lemma DisplayNameLeaves(d: Definition, n: string, shown: string)
    requires WellFormed(d) && ParamsOf(d, n).solitary.Some? && ParamsOf(d, n).solitary.value == shown
    ensures Clean(shown) != ""
  {
    assert n in d.params;
    assert Name(shown);
    EndsInText(shown);
  }

  lemma ListLeaves(names: seq<string>)
    requires |names| > 1
    ensures Clean("REL TO " + Join(", ", names)) != ""
  {
    var to, text := "REL TO ", Join(", ", names);
    CommaInList(names);
    assert ',' in to + text;
    HoldsComma(to + text);
  }

  /** Cleaning leaves something of a group marking, unless it names the empty group. */
  lemma GroupLeaves(d: Definition, long: bool, gs: set<string>, shown: seq<string>)
    requires WellFormed(d) && Shows(d, long, gs, shown) && shown != [] && (gs != {""} || Collides(d, ""))
    ensures Clean(GroupText(d, long, shown)) != ""
  {
    if |shown| == 1 {
      var g := OneShown(d, long, gs, shown);
      assert g in gs;
      OneGroupLeaves(d, long, g);
    } else if long {
      SortedLeaves(shown);
    } else {
      FoldedLeaves(d, shown);
    }
  }

  lemma SortedLeaves(shown: seq<string>)
    requires |shown| > 1
    ensures Clean("REL TO " + Join(", ", Sort(shown))) != ""
  {
    ElemsSort(shown);
    ListLeaves(Sort(shown));
  }

  lemma FoldedLeaves(d: Definition, shown: seq<string>)
    requires WellFormed(d) && |shown| > 1
    ensures Clean("REL TO " + Join(", ", Sort(FoldAlias(d, d.groupAliasOrder, shown)))) != ""
  {
    FoldAliasFacts(d, d.groupAliasOrder, shown);
    if FoldAlias(d, d.groupAliasOrder, shown) == shown {
      SortedLeaves(shown);
    } else {
      var a :| a in d.groupAliasOrder && FoldAlias(d, d.groupAliasOrder, shown) == [a];
      AliasIsName(d, a);
      OneToken(a);
      EndsInName("REL TO ", a);
    }
  }

  lemma GroupSlot(d: Definition, long: bool, gs: set<string>, shown: seq<string>)
    requires WellFormed(d) && Shows(d, long, gs, shown) && shown != [] && (gs != {""} || Collides(d, ""))
    ensures Slots([Clean(GroupText(d, long, shown))])
  {
    GroupLeaves(d, long, gs, shown);
    GroupTextIsPiece(d, long, gs, shown);
    CleanFacts(GroupText(d, long, shown));
  }

  lemma CleanedGroup(d: Definition, long: bool, p: Parts, shown: seq<string>) returns (g: seq<string>)
    requires WellFormed(d) && Closed(d, p) && Shows(d, long, p.groups, shown) && (p.groups != {""} || Collides(d, ""))
    ensures g == CleanEach(GroupNames(d, long, shown))
    ensures |g| <= 1 && Slots(g) && (d.dynamicGroups || (g != [] ==> Readable(d, g[0])))
  {
    if shown == [] {
      g := [];
      assert CleanEach([]) == [];
    } else {
      var text := GroupText(d, long, shown);
      g := [Clean(text)];
      CleanOne(text);
      GroupSlot(d, long, p.groups, shown);
      if !d.dynamicGroups {
        GroupsConfigured(d, p);
        GroupCleaned(d, long, p.groups, shown);
      }
    }
  }

  lemma CleanedThree(a: seq<string>, g: seq<string>, b: seq<string>)
    requires Bare(a) && Bare(b) && Slots(CleanEach(g))
    ensures CleanEach(a + g + b) == a + CleanEach(g) + b && Slots(a + CleanEach(g) + b)
  {
    CleanEachConcat(a, g);
    CleanEachConcat(a + g, b);
    CleanEachClean(a);
    CleanEachClean(b);
  }

  lemma LastNamesPass(d: Definition, long: bool, p: Parts, req: seq<string>, shown: seq<string>, subs: seq<string>)
    requires WellFormed(d) && Closed(d, p) && Shows(d, long, p.groups, shown) && (p.groups != {""} || Collides(d, ""))
    requires Elems(req) == ShownReqs(d, long, p.req) && Elems(subs) == ShownSubs(d, long, p.subgroups)
    ensures var last := CleanEach(LastNames(d, long, req, shown, subs));
            Slots(last) && (last != [] ==> Passes(d, Join("/", last)))
  {
    var a, g, b := Sort(RequiredGroupItems(d, req)), GroupNames(d, long, shown), Sort(subs);
    InGroupFacts(d, req);
    ElemsSort(subs);
    ReqNamesAreBare(d, long, p.req, a);
    SubNamesAreBare(d, long, p.subgroups, b);
    var cleaned := CleanedGroup(d, long, p, shown);
    CleanedThree(a, g, b);
    if a + cleaned + b != [] {
      LastPasses(d, a, cleaned, b);
    }
  }

  lemma GroupsConfigured(d: Definition, p: Parts)
    requires Closed(d, p)
    ensures d.dynamicGroups || p.groups <= d.groupStl.Keys
  {
  }

  // ---------------------------------------------------------------- the empty dynamic group

  lemma EndSlash(s: string)
    requires Flat(s) && s != "" && s[0] != '/'
    ensures NoPair(s + "/") && Flat("/" + s)
  {
    var e, f := s + "/", "/" + s;
    forall i | 0 <= i < |e| - 1 ensures !(e[i] == '/' && e[i + 1] == '/') {
      if i < |s| - 1 { assert e[i] == s[i] && e[i + 1] == s[i + 1]; } else { assert e[i] == s[|s| - 1]; }
    }
    forall i | 0 <= i < |f| - 1 ensures !(f[i] == '/' && f[i + 1] == '/') {
      if i > 0 { assert f[i] == s[i - 1] && f[i + 1] == s[i]; } else { assert f[1] == s[0]; }
    }
    assert f[|f| - 1] == s[|s| - 1];
  }

  lemma NothingBetween(a: seq<string>, b: seq<string>)
    requires a != [] && b != []
    ensures Join("/", a + [""] + b) == Join("/", a) + "//" + Join("/", b)
  {
    var nothing: seq<string> := [""];
    var (x, y) := (Join("/", a), Join("/", b));
    JoinConcat(a, nothing);
    JoinConcat(a + nothing, b);
    assert x + "/" + "" + "/" + y == x + "//" + y;
  }

  lemma NothingAfter(a: seq<string>)
    requires a != []
    ensures Join("/", a + [""]) == Join("/", a) + "/"
  {
    var nothing: seq<string> := [""];
    JoinConcat(a, nothing);
    var x := Join("/", a);
    assert x + "/" + "" == x + "/";
  }

  lemma NothingBefore(b: seq<string>)
    requires b != []
    ensures Join("/", [""] + b) == "/" + Join("/", b)
  {
    var nothing: seq<string> := [""];
    JoinConcat(nothing, b);
    var y := Join("/", b);
    assert "" + "/" + y == "/" + y;
  }

  /** Nothing between two slashes: the section falls apart when there is something on both sides. */
  lemma SectionsAroundNothing(a: seq<string>, b: seq<string>)
    requires Slots(a) && Slots(b)
    ensures var text := Join("/", a + [""] + b);
            Sections(text) == if a != [] && b != [] then [Join("/", a), Join("/", b)] else [text]
  {
    if a != [] { JoinFlat(a); EndSlash(Join("/", a)); }
    if b != [] { JoinFlat(b); EndSlash(Join("/", b)); }
    if a != [] && b != [] {
      NothingBetween(a, b);
      SectionsOfOne(Join("/", b));
      SectionsAt(Join("/", a), Join("/", b));
    } else if a != [] {
      NothingAfter(a);
      SectionsOfOne(Join("/", a) + "/");
      assert a + [""] + b == a + [""];
    } else if b != [] {
      NothingBefore(b);
      SectionsOfOne("/" + Join("/", b));
      assert a + [""] + b == [""] + b;
    } else {
      assert a + [""] + b == [""];
    }
  }

  lemma SectionsThen(level: string, plain: seq<string>, text: string)
    requires Flat(level) && Slots(plain)
    ensures Sections(level + Section("//", plain) + ("//" + text))
         == [level] + (if plain == [] then [] else [Join("/", plain)]) + Sections(text)
  {
    if plain == [] {
      assert level + "" + ("//" + text) == level + "//" + text;
      SectionsAt(level, text);
    } else {
      JoinFlat(plain);
      var first := Join("/", plain);
      SectionsBefore(level, first, "//" + text);
      Associate(first, "//", text);
      SectionsAt(first, text);
    }
  }

  /** With dynamic groups only the number of sections and the required ones count. */
  lemma ShapedDynamic(d: Definition, level: string, plain: seq<string>, a: seq<string>, rest: seq<string>)
    requires d.dynamicGroups && LevelKnown(d, level) && Bare(plain) && AllReq(d, plain) && Bare(a) && AllReq(d, a)
    requires |rest| == 1 || (|rest| == 2 && a != [] && rest[0] == Join("/", a))
    ensures Shaped(d, [level] + (if plain == [] then [] else [Join("/", plain)]) + rest) <==> plain == [] || |rest| == 1
  {
    var first := if plain == [] then [] else [Join("/", plain)];
    if |rest| == 1 {
      LastShaped(d, level, plain, rest[0]);
      assert rest == [rest[0]];
    } else if plain == [] {
      TwoShaped(d, level, a, rest[0], rest[1]);
      assert [level] + first + rest == [level] + [rest[0]] + [rest[1]];
    } else {
      TooMany(d, [level] + first + rest);
    }
  }

  lemma LastShaped(d: Definition, level: string, plain: seq<string>, last: string)
    requires d.dynamicGroups && LevelKnown(d, level) && Bare(plain) && AllReq(d, plain)
    ensures Shaped(d, [level] + (if plain == [] then [] else [Join("/", plain)]) + [last])
  {
    if plain != [] {
      ItemsOfNames(plain);
    }
    DynamicShape(d, level, if plain == [] then [] else [Join("/", plain)], last);
  }

  lemma TooMany(d: Definition, parts: seq<string>)
    requires |parts| > 3
    ensures !Shaped(d, parts)
  {
  }

  lemma TwoShaped(d: Definition, level: string, a: seq<string>, x: string, last: string)
    requires d.dynamicGroups && LevelKnown(d, level) && Bare(a) && AllReq(d, a) && a != [] && x == Join("/", a)
    ensures Shaped(d, [level] + [x] + [last])
  {
    ItemsOfNames(a);
    DynamicShape(d, level, [x], last);
  }

  lemma DynamicShape(d: Definition, level: string, middle: seq<string>, last: string)
    requires d.dynamicGroups && LevelKnown(d, level) && (middle == [] || (|middle| == 1 && Plain(d, middle[0])))
    ensures Shaped(d, [level] + middle + [last])
  {
    var rest := middle + [last];
    assert ([level] + middle + [last])[1..] == rest;
    DynamicAllPass(d, rest);
    AtMostOnePlain(d, middle);
    assert rest[..|rest| - 1] == middle;
  }

  lemma DynamicAllPass(d: Definition, parts: seq<string>)
    requires d.dynamicGroups
    ensures AllPass(d, parts)
  {
    forall k | 0 <= k < |parts| ensures Passes(d, parts[k]) {
      DynamicPasses(d, parts[k]);
    }
  }

  lemma AtMostOnePlain(d: Definition, parts: seq<string>)
    requires parts == [] || (|parts| == 1 && Plain(d, parts[0]))
    ensures AllPlain(d, parts)
  {
    if parts != [] {
      assert parts == [] + [parts[0]];
      PlainOne(d, [], parts[0]);
    }
  }

  lemma EmptyGroupCleaned(d: Definition, long: bool, shown: seq<string>)
    requires WellFormed(d) && Shows(d, long, {""}, shown) && !Collides(d, "") && "" !in d.groupStl
    ensures shown != [] && Clean(GroupText(d, long, shown)) == ""
  {
    NotOneShown(d, long, {""}, shown, "");
    var g := OneShown(d, long, {""}, shown);
    assert g in {""} && ShownGroup(d, long, g) == "";
    var names: seq<string> := [""];
    assert Sort(names) == names;
    ListCleaned(names);
  }

  /** The only group is the empty one, some required item is shown before it, some next to it, and there are
      subgroups. */
  ghost predicate TornApart(d: Definition, p: Parts) {
    && p.groups == {""} && !Collides(d, "") && p.subgroups != {}
    && (exists r :: r in p.req && ParamsOf(d, r).requiredGroup)
    && (exists r :: r in p.req && !ParamsOf(d, r).requiredGroup)
  }

  lemma ShownParams(d: Definition, long: bool, rs: set<string>, r: string)
    requires Bilingual(d.reqStl, d.reqLts, d.params) && rs <= d.reqStl.Keys && r in rs
    ensures ShownReq(d, long, r) in ShownReqs(d, long, rs) && ParamsOf(d, ShownReq(d, long, r)) == ParamsOf(d, r)
  {
  }

  lemma ShownPlain(d: Definition, long: bool, rs: set<string>, req: seq<string>, hash: Hash)
    requires Bilingual(d.reqStl, d.reqLts, d.params) && rs <= d.reqStl.Keys && Lists(hash)
    requires Elems(req) == ShownReqs(d, long, rs)
    ensures PlainNames(d, req, hash) != [] <==> exists r :: r in rs && !ParamsOf(d, r).requiredGroup
  {
    var plain := PlainNames(d, req, hash);
    RequiredGroupItemsMembers(d, req);
    assert Elems(plain) == Elems(req) - Elems(RequiredGroupItems(d, req));
    if plain != [] {
      assert plain[0] in Elems(plain);
      var r :| r in rs && plain[0] == ShownReq(d, long, r);
      ShownParams(d, long, rs, r);
    }
    if r :| r in rs && !ParamsOf(d, r).requiredGroup {
      ShownParams(d, long, rs, r);
      assert ShownReq(d, long, r) in Elems(plain);
    }
  }

  lemma ShownInGroup(d: Definition, long: bool, rs: set<string>, req: seq<string>)
    requires Bilingual(d.reqStl, d.reqLts, d.params) && rs <= d.reqStl.Keys && Elems(req) == ShownReqs(d, long, rs)
    ensures RequiredGroupItems(d, req) != [] <==> exists r :: r in rs && ParamsOf(d, r).requiredGroup
  {
    var inGroup := RequiredGroupItems(d, req);
    RequiredGroupItemsMembers(d, req);
    if inGroup != [] {
      assert inGroup[0] in inGroup && inGroup[0] in Elems(req);
      var r :| r in rs && inGroup[0] == ShownReq(d, long, r);
      ShownParams(d, long, rs, r);
    }
    if r :| r in rs && ParamsOf(d, r).requiredGroup {
      ShownParams(d, long, rs, r);
      assert ShownReq(d, long, r) in Elems(req);
    }
  }

  lemma EmptyGroupShaped(d: Definition, long: bool, level: string, plain: seq<string>, a: seq<string>, g: string,
                         b: seq<string>)
    requires d.dynamicGroups && LevelKnown(d, level) && Flat(level) && Clean(level) == level && Clean(g) == ""
    requires Bare(plain) && AllReq(d, plain) && Bare(a) && AllReq(d, a) && Bare(b)
    ensures var text := Clean(level + Section("//", plain) + Section("//", a + [g] + b));
            Shaped(d, Sections(text)) <==> plain == [] || a == [] || b == []
  {
    CleanedText(level, plain, a + [g] + b);
    CleanOne(g);
    CleanedAround(a, g, b);
    var inner := Join("/", a + [""] + b);
    SectionsAroundNothing(a, b);
    SectionsThen(level, plain, inner);
    ShapedDynamic(d, level, plain, a, Sections(inner));
  }

  lemma CleanedAround(a: seq<string>, g: string, b: seq<string>)
    requires Bare(a) && Bare(b) && Clean(g) == ""
    ensures CleanEach(a + [g] + b) == a + [""] + b
  {
    CleanEachConcat(a, [g]);
    CleanEachConcat(a + [g], b);
    CleanEachClean(a);
    CleanEachClean(b);
    CleanOne(g);
  }

  // ---------------------------------------------------------------- printing gives valid markings

  /** The text of closed parts has the shape `is_valid` asks for exactly unless an empty group tears it apart. */
  lemma PrintedIsShaped(d: Definition, long: bool, p: Parts, t: string)
    requires WellFormed(d) && NoAutoSelect(d) && CleanLevels(d) && Closed(d, p) && PrintOf(d, long, p, t)
    ensures Shaped(d, Sections(Clean(t))) <==> !TornApart(d, p)
  {
    var l: Lists4, hash: Hash :| Prints(d, long, p, l, hash, t);
    ClosedIsFilled(d, p);
    var gs, shown := PrintedText(d, p, l.req, l.groups, l.subgroups, long, false, hash);
    var level := LevelName(d, long, Raise(d, p).lvl).value;
    LevelIsFlat(d, long, Raise(d, p).lvl);
    TailIsSections(d, long, l.req, shown, l.subgroups, hash);
    var plain, last := PlainNames(d, l.req, hash), LastNames(d, long, l.req, shown, l.subgroups);
    Associate(level, Section("//", plain), Section("//", last));
    NamesAreBare(d, long, p, l, hash);
    if p.groups == {""} && !Collides(d, "") {
      EmptyGroupPrinted(d, long, p, l, hash, shown, level);
    } else {
      LastNamesPass(d, long, p, l.req, shown, l.subgroups);
      CleanedText(level, plain, last);
      SectionsOfLists(level, plain, CleanEach(last));
      ShapedLists(d, level, plain, CleanEach(last));
    }
  }

  lemma EmptyGroupPrinted(d: Definition, long: bool, p: Parts, l: Lists4, hash: Hash, shown: seq<string>, level: string)
    requires WellFormed(d) && Closed(d, p) && p.groups == {""} && !Collides(d, "") && Lists(hash)
    requires ListsOf(d, long, p, l)
    requires Shows(d, long, p.groups, shown) && LevelKnown(d, level) && Flat(level) && Clean(level) == level
    ensures var text := level + Section("//", PlainNames(d, l.req, hash))
            + Section("//", LastNames(d, long, l.req, shown, l.subgroups));
            Shaped(d, Sections(Clean(text))) <==> !TornApart(d, p)
  {
    var plain, a, b := PlainNames(d, l.req, hash), Sort(RequiredGroupItems(d, l.req)), Sort(l.subgroups);
    EmptyIsDynamic(d, p);
    EmptyGroupCleaned(d, long, shown);
    NamesAreBare(d, long, p, l, hash);
    TornNames(d, long, p, l, hash);
    EmptyGroupShaped(d, long, level, plain, a, GroupText(d, long, shown), b);
  }

  lemma NamesAreBare(d: Definition, long: bool, p: Parts, l: Lists4, hash: Hash)
    requires WellFormed(d) && Closed(d, p) && Lists(hash) && ListsOf(d, long, p, l)
    ensures Bare(PlainNames(d, l.req, hash)) && AllReq(d, PlainNames(d, l.req, hash))
    ensures Bare(Sort(RequiredGroupItems(d, l.req))) && AllReq(d, Sort(RequiredGroupItems(d, l.req)))
    ensures Bare(Sort(l.subgroups))
  {
    InGroupFacts(d, l.req);
    ElemsSort(l.subgroups);
    assert Elems(PlainNames(d, l.req, hash)) <= Elems(l.req);
    ReqNamesAreBare(d, long, p.req, PlainNames(d, l.req, hash));
    ReqNamesAreBare(d, long, p.req, Sort(RequiredGroupItems(d, l.req)));
    SubNamesAreBare(d, long, p.subgroups, Sort(l.subgroups));
  }

  lemma TornNames(d: Definition, long: bool, p: Parts, l: Lists4, hash: Hash)
    requires Bilingual(d.reqStl, d.reqLts, d.params) && p.req <= d.reqStl.Keys && Lists(hash) && ListsOf(d, long, p, l)
    requires p.groups == {""} && !Collides(d, "")
    ensures TornApart(d, p) <==>
      PlainNames(d, l.req, hash) != [] && Sort(RequiredGroupItems(d, l.req)) != [] && Sort(l.subgroups) != []
  {
    ShownPlain(d, long, p.req, l.req, hash);
    ShownInGroup(d, long, p.req, l.req);
    ShownNone(d, long, p.subgroups, l.subgroups);
    ElemsSort(l.subgroups);
    ElemsSort(RequiredGroupItems(d, l.req));
  }

  lemma EmptyIsDynamic(d: Definition, p: Parts)
    requires WellFormed(d) && Closed(d, p) && p.groups == {""}
    ensures d.dynamicGroups && "" !in d.groupStl
  {
    assert "" in p.groups;
  }

  lemma ShownNone(d: Definition, long: bool, ss: set<string>, subs: seq<string>)
    requires Elems(subs) == ShownSubs(d, long, ss)
    ensures subs == [] <==> ss == {}
  {
    ShownGroupsEmpty(d, long, ss);
    if subs != [] { assert subs[0] in Elems(subs); }
  }

  /** What `is_valid` asks of a marking: normalizing keeps its parts, and it has the shape of a marking. */
  ghost predicate ValidMarking(d: Definition, hit: bool, text: string) {
    Kept(d, hit, text) && Shaped(d, Sections(Clean(text)))
  }

  /** Normalizing gives a valid marking exactly when its text parses, is in the cache or parses to groups that survive
      printing, and is not torn apart by an empty group; without dynamic groups, always. */
  lemma NormalizedIsValid(d: Definition, long: bool, text: string, c: string, hit: bool)
    requires WellFormed(d) && NoAutoSelect(d) && CleanLevels(d)
    requires Parse(d, text, STANDARD).Valid? && Computed(d, long, text, STANDARD, Valid(c))
    ensures var p := Parse(d, text, STANDARD).value;
            ValidMarking(d, hit, c) <==>
              ReadAgain(d, p).Valid? && (hit || Printable(d, ReadAgain(d, p).value.groups)) && !TornApart(d, p)
    ensures Sound(d, text) ==> (ValidMarking(d, hit, c) <==> !TornApart(d, Parse(d, text, STANDARD).value))
    ensures !d.dynamicGroups ==> ValidMarking(d, hit, c)
  {
    var p := Parse(d, text, STANDARD).value;
    ParseCloses(d, text, STANDARD);
    ClosedIsFilled(d, p);
    PrintedIsShaped(d, long, p, c);
    TextReadAgain(d, long, p, c);
    ReadAgainFacts(d, p);
    if !d.dynamicGroups {
      ConfiguredArePrintable(d, p);
      NotTorn(d, p);
    }
  }

  lemma NotTorn(d: Definition, p: Parts)
    requires WellFormed(d) && Closed(d, p) && !d.dynamicGroups
    ensures !TornApart(d, p)
  {
    if p.groups == {""} {
      EmptyIsDynamic(d, p);
    }
  }
}
