/** The text layer of the classification engine: cutting a printed marking apart again gives the
    level, the required items, the group marking and the subgroups it was printed from. */
module MarkingText {
  import opened Wrappers
  import opened Strings
  import opened Marking

  // ---------------------------------------------------------------- characters of joined texts

  lemma {:induction false} JoinChars(sep: string, names: seq<string>, c: char)
    requires c !in sep && forall n :: n in names ==> c !in n
    ensures c !in Join(sep, names)
  {
    if |names| > 1 {
      forall n | n in names[1..] ensures c !in n { assert n in names; }
      JoinChars(sep, names[1..], c);
    }
  }

  lemma {:induction false} JoinUpper(sep: string, names: seq<string>)
    requires IsUpper(sep) && forall n :: n in names ==> IsUpper(n)
    ensures IsUpper(Join(sep, names))
  {
    if |names| > 1 {
      forall n | n in names[1..] ensures IsUpper(n) { assert n in names; }
      JoinUpper(sep, names[1..]);
      UpperConcat(names[0], sep);
      UpperConcat(names[0] + sep, Join(sep, names[1..]));
    }
  }

  lemma ElemsSort(s: seq<string>)
    ensures Elems(Sort(s)) == Elems(s) && |Sort(s)| == |s|
  {
    SortMembers(s);
  }

  // ---------------------------------------------------------------- the pieces of a printed marking

  /** A text that can stand between two slashes. */
  predicate Piece(p: string) {
    p != "" && '/' !in p && IsUpper(p)
  }

  lemma PiecesOfJoined(names: seq<string>)
    requires forall n :: n in names ==> Piece(n)
    ensures Pieces(Join("/", names)) == Elems(names)
    ensures IsUpper(Join("/", names))
  {
    PiecesJoin(names);
    JoinUpper("/", names);
  }

  /** One more section after `a`, introduced by either separator. */
  lemma PiecesSection(a: string, slashes: string, b: string)
    requires slashes == "/" || slashes == "//"
    ensures Pieces(a + (slashes + b)) == Pieces(a) + Pieces(b)
  {
    PiecesConcat(a, b);
    assert a + (slashes + b) == a + slashes + b;
  }

  lemma {:induction false} RequiredGroupItemsMembers(d: Definition, req: seq<string>)
    ensures forall r :: r in RequiredGroupItems(d, req) <==> r in req && ParamsOf(d, r).requiredGroup
  {
    if req != [] {
      RequiredGroupItemsMembers(d, req[1..]);
      assert req == [req[0]] + req[1..];
    }
  }

  /** One list of names behind `//`, or nothing. */
  function Section(slashes: string, names: seq<string>): string {
    if names == [] then "" else slashes + Join("/", names)
  }

  lemma AppendSection(a: string, slashes: string, names: seq<string>)
    requires slashes == "/" || slashes == "//"
    requires forall n :: n in names ==> Piece(n)
    ensures Pieces(a + Section(slashes, names)) == Pieces(a) + Elems(names)
    ensures IsUpper(a) ==> IsUpper(a + Section(slashes, names))
  {
    if names == [] {
      assert a + Section(slashes, names) == a;
    } else {
      PiecesOfJoined(names);
      PiecesSection(a, slashes, Join("/", names));
      UpperConcat(slashes, Join("/", names));
      UpperConcat(a, Section(slashes, names));
    }
  }

  lemma PiecesIn(names: seq<string>, all: seq<string>)
    requires Elems(names) <= Elems(all) && forall n :: n in all ==> Piece(n)
    ensures forall n :: n in names ==> Piece(n)
  {
    forall n | n in names ensures Piece(n) { assert n in Elems(names); }
  }

  lemma InGroupFacts(d: Definition, req: seq<string>)
    ensures var inGroup := RequiredGroupItems(d, req);
            Elems(Sort(inGroup)) == Elems(inGroup) && Elems(inGroup) <= Elems(req) && |Sort(inGroup)| == |inGroup|
  {
    RequiredGroupItemsMembers(d, req);
    ElemsSort(RequiredGroupItems(d, req));
  }

  lemma ReqSectionPieces(d: Definition, req: seq<string>, hash: Hash)
    requires Lists(hash) && forall r :: r in req ==> Piece(r)
    ensures Pieces(ReqSection(d, req, hash)) == Elems(req)
    ensures IsUpper(ReqSection(d, req, hash))
    ensures ReqSection(d, req, hash) == "" || "//" <= ReqSection(d, req, hash)
    ensures RequiredGroupItems(d, req) != [] ==> ReqSection(d, req, hash) != ""
  {
    var inGroup := RequiredGroupItems(d, req);
    var plain := hash(Elems(req) - Elems(inGroup));
    InGroupFacts(d, req);
    assert Elems(plain) == Elems(req) - Elems(inGroup);
    PiecesIn(plain, req);
    PiecesIn(Sort(inGroup), req);
    TwoSections(plain, Sort(inGroup));
    assert ReqSection(d, req, hash) == Section("//", plain) + Section("//", Sort(inGroup));
    assert Elems(req) == Elems(plain) + Elems(Sort(inGroup));
  }

  lemma TwoSections(a: seq<string>, b: seq<string>)
    requires forall n :: n in a ==> Piece(n)
    requires forall n :: n in b ==> Piece(n)
    ensures var s := Section("//", a) + Section("//", b);
            Pieces(s) == Elems(a) + Elems(b) && IsUpper(s) && (s == "" || "//" <= s) && (b != [] ==> s != "")
  {
    PiecesEmpty();
    AppendSection("", "//", a);
    assert "" + Section("//", a) == Section("//", a);
    AppendSection(Section("//", a), "//", b);
  }

  lemma GroupSectionPieces(d: Definition, long: bool, a: string, inGroup: bool, shown: seq<string>)
    requires shown != [] ==> Piece(GroupText(d, long, shown))
    requires IsUpper(a)
    ensures var b := GroupSection(d, long, inGroup, shown);
            && Pieces(a + b) == Pieces(a) + (if shown == [] then {} else {GroupText(d, long, shown)})
            && IsUpper(a + b)
  {
    if shown == [] {
      assert a + "" == a;
    } else {
      var g := GroupText(d, long, shown);
      var slashes := if inGroup then "/" else "//";
      PiecesSection(a, slashes, g);
      PiecesSingle(g);
      UpperConcat(slashes, g);
      UpperConcat(a, slashes + g);
    }
  }

  lemma SubSectionPieces(a: string, joined: bool, subs: seq<string>)
    requires IsUpper(a) && forall s :: s in subs ==> Piece(s)
    ensures Pieces(a + SubSection(joined, subs)) == Pieces(a) + Elems(subs)
    ensures IsUpper(a + SubSection(joined, subs))
  {
    var slashes := if joined then "/" else "//";
    ElemsSort(subs);
    PiecesIn(Sort(subs), subs);
    AppendSection(a, slashes, Sort(subs));
    assert SubSection(joined, subs) == Section(slashes, Sort(subs));
  }

  predicate Begins(s: string, slashes: string) { s == "" || slashes <= s }

  lemma BeginsWith(slashes: string, text: string)
    ensures Begins(slashes + text, slashes)
  {
  }

  lemma SectionsBegin(d: Definition, long: bool, shown: seq<string>, subs: seq<string>)
    ensures Begins(GroupSection(d, long, false, shown), "//") && Begins(SubSection(false, subs), "//")
  {
    var slashes := "//";
    if shown != [] { BeginsWith(slashes, GroupText(d, long, shown)); }
    BeginsWith(slashes, Join("/", Sort(subs)));
  }

  /** Whatever comes first begins with the slashes. */
  lemma FirstBegins(a: string, b: string, c: string, slashes: string)
    requires Begins(a, slashes) && (a == "" ==> Begins(b, slashes)) && (a == "" && b == "" ==> Begins(c, slashes))
    ensures Begins(a + b + c, slashes)
  {
    if a == "" {
      assert a + b + c == b + c;
      if b == "" { assert b + c == c; }
    } else {
      assert a + b + c == a + (b + c);
    }
  }

  /** The sections after the level: the pieces they hold, and how they begin. */
  lemma TailPieces(d: Definition, long: bool, req: seq<string>, shown: seq<string>, subs: seq<string>, hash: Hash)
    requires Lists(hash)
    requires forall r :: r in req ==> Piece(r)
    requires forall s :: s in subs ==> Piece(s)
    requires shown != [] ==> Piece(GroupText(d, long, shown))
    ensures var inGroup := RequiredGroupItems(d, req) != [];
            var tail := ReqSection(d, req, hash) + GroupSection(d, long, inGroup, shown)
                        + SubSection(inGroup || shown != [], subs);
            && Pieces(tail) == Elems(req) + (if shown == [] then {} else {GroupText(d, long, shown)}) + Elems(subs)
            && IsUpper(tail)
            && Begins(tail, "//")
  {
    var inGroup := RequiredGroupItems(d, req) != [];
    var a, b := ReqSection(d, req, hash), GroupSection(d, long, inGroup, shown);
    ReqSectionPieces(d, req, hash);
    GroupSectionPieces(d, long, a, inGroup, shown);
    SubSectionPieces(a + b, inGroup || shown != [], subs);
    TailBegins(d, long, inGroup, a, shown, subs);
  }

  lemma TailBegins(d: Definition, long: bool, inGroup: bool, a: string, shown: seq<string>, subs: seq<string>)
    requires Begins(a, "//") && (inGroup ==> a != "") && (shown != [] ==> GroupText(d, long, shown) != "")
    ensures Begins(a + GroupSection(d, long, inGroup, shown) + SubSection(inGroup || shown != [], subs), "//")
  {
    SectionsBegin(d, long, shown, subs);
    FirstBegins(a, GroupSection(d, long, inGroup, shown), SubSection(inGroup || shown != [], subs), "//");
  }

  /** Reading a printed marking: the level comes back, and so do the pieces of the rest. */
  lemma ReadBack(level: string, tail: string)
    requires '/' !in level && IsUpper(level) && IsUpper(tail)
    requires tail == "" || "//" <= tail
    ensures Partition(Upper(level + tail)).0 == level
    ensures Pieces(Partition(Upper(level + tail)).1) == Pieces(tail)
  {
    UpperFixed(level + tail);
    if tail == "" {
      assert level + tail == level;
      PartitionNone(level);
    } else {
      assert tail == "//" + tail[2..];
      assert level + tail == level + "//" + tail[2..];
      PartitionAt(level, tail[2..]);
      PiecesSection("", "//", tail[2..]);
      assert "" + ("//" + tail[2..]) == tail;
      PiecesEmpty();
    }
  }

  // ---------------------------------------------------------------- the group marking

  function DeleteEach(names: seq<string>, pat: string): seq<string>
    requires pat != ""
  {
    seq(|names|, i requires 0 <= i < |names| => Delete(names[i], pat))
  }

  lemma {:induction false} DeleteJoin(names: seq<string>, pat: string)
    requires pat != "" && ',' !in pat && pat[0] != ' '
    ensures Delete(Join(", ", names), pat) == Join(", ", DeleteEach(names, pat))
  {
    if |names| > 1 {
      DeleteJoin(names[1..], pat);
      DeleteFirst(names[0], Join(", ", names[1..]), pat);
      assert DeleteEach(names, pat)[1..] == DeleteEach(names[1..], pat);
    } else if |names| == 1 {
      assert DeleteEach(names, pat) == [Delete(names[0], pat)];
    }
  }

  /** The comma and the space after a name cut the removal in two. */
  lemma DeleteFirst(name: string, rest: string, pat: string)
    requires pat != "" && ',' !in pat && pat[0] != ' '
    ensures Delete(name + ", " + rest, pat) == Delete(name, pat) + ", " + Delete(rest, pat)
  {
    DeleteAcross(name, ',', " " + rest, pat);
    assert (" " + rest)[1..] == rest;
    assert name + [','] + (" " + rest) == name + ", " + rest;
    assert Delete(name, pat) + [','] + (" " + Delete(rest, pat)) == Delete(name, pat) + ", " + Delete(rest, pat);
  }

  lemma {:induction false} SplitJoinStrip(names: seq<string>)
    requires names != [] && forall n :: n in names ==> ',' !in n
    ensures (set t | t in Split(Join(", ", names), ',') :: Strip(t)) == set n | n in names :: Strip(n)
  {
    if |names| == 1 {
      SplitNone(names[0], ',');
      assert Split(Join(", ", names), ',') == names;
    } else {
      var rest := Join(", ", names[1..]);
      forall n | n in names[1..] ensures ',' !in n { assert n in names; }
      SplitJoinStrip(names[1..]);
      assert Join(", ", names) == names[0] + [','] + (" " + rest);
      SplitConcat(names[0], " " + rest, ',');
      SplitNone(names[0], ',');
      var pieces := Split(rest, ',');
      assert (" " + rest)[1..] == rest;
      assert Split(" " + rest, ',') == [" " + pieces[0]] + pieces[1..];
      StripSpace(pieces[0]);
      var got := Split(Join(", ", names), ',');
      assert got == [names[0]] + ([" " + pieces[0]] + pieces[1..]);
      assert names == [names[0]] + names[1..];
      assert pieces == [pieces[0]] + pieces[1..];
      var inner := set t | t in pieces :: Strip(t);
      assert inner == set n | n in names[1..] :: Strip(n);
      assert (set t | t in got :: Strip(t)) == {Strip(names[0])} + inner by {
        forall x | x in inner ensures x in set t | t in got :: Strip(t) {
          var t :| t in pieces && Strip(t) == x;
          if t == pieces[0] {
            assert got[1] in got && Strip(got[1]) == x;
          } else {
            assert t in got;
          }
        }
        forall t | t in got ensures Strip(t) in {Strip(names[0])} + inner {
          if t == " " + pieces[0] {
            assert Strip(t) == Strip(pieces[0]) && pieces[0] in pieces;
          } else if t != names[0] {
            assert t in pieces;
          }
        }
      }
      assert (set n | n in names :: Strip(n)) == {Strip(names[0])} + (set n | n in names[1..] :: Strip(n));
    }
  }

  lemma CleanFacts(n: string)
    ensures |Clean(n)| <= |n|
    ensures Contains(n, "REL ") ==> |Clean(n)| < |n|
    ensures !Contains(n, "REL ") ==> Clean(n) == n
    ensures forall c :: c in Clean(n) ==> c in n
  {
    DeleteShrinks(n, "REL TO ");
    DeleteShrinks(Delete(n, "REL TO "), "REL ");
    if Contains(n, "REL TO ") {
      var i :| OccursAt(n, "REL TO ", i);
      assert n[i..i + 4] == n[i..i + 7][..4];
      assert OccursAt(n, "REL ", i);
    } else {
      DeleteAbsent(n, "REL TO ");
      if !Contains(n, "REL ") {
        DeleteAbsent(n, "REL ");
      }
    }
  }

  function CleanEach(names: seq<string>): seq<string> {
    seq(|names|, i requires 0 <= i < |names| => Clean(names[i]))
  }

  lemma CleanOfList(names: seq<string>)
    ensures Clean("REL TO " + Join(", ", names)) == Join(", ", CleanEach(names))
  {
    var once := DeleteEach(names, "REL TO ");
    DeletePrefix(Join(", ", names), "REL TO ");
    DeleteJoin(names, "REL TO ");
    DeleteJoin(once, "REL ");
    assert DeleteEach(once, "REL ") == CleanEach(names);
  }

  /** The tokens read from a "REL TO" list are its names, each cleaned on its own. */
  lemma TokensOfList(names: seq<string>)
    requires names != [] && forall n :: n in names ==> ',' !in n
    ensures Tokens("REL TO " + Join(", ", names)) == set n | n in names :: Strip(Clean(n))
  {
    var clean := CleanEach(names);
    CleanOfList(names);
    forall t | t in clean ensures ',' !in t {
      var i :| 0 <= i < |clean| && clean[i] == t;
      CleanFacts(names[i]);
      assert names[i] in names;
    }
    SplitJoinStrip(clean);
    StripOfClean(names);
  }

  lemma StripOfClean(names: seq<string>)
    ensures (set t | t in CleanEach(names) :: Strip(t)) == set n | n in names :: Strip(Clean(n))
  {
    var clean := CleanEach(names);
    forall n | n in names ensures Strip(Clean(n)) in set t | t in clean :: Strip(t) {
      var i :| 0 <= i < |names| && names[i] == n;
      assert clean[i] in clean;
    }
    forall t | t in clean ensures Strip(t) in set n | n in names :: Strip(Clean(n)) {
      var i :| 0 <= i < |clean| && clean[i] == t;
      assert names[i] in names;
    }
  }

  // ---------------------------------------------------------------- meanings of sets of pieces

  ghost function Union(a: Found, b: Found): Found {
    Found(a.req + b.req, a.groups + b.groups, a.subgroups + b.subgroups, a.unknown + b.unknown, a.bad || b.bad)
  }

  lemma GatherUnion(d: Definition, a: set<string>, b: set<string>)
    ensures Gather(d, a + b) == Union(Gather(d, a), Gather(d, b))
  {
    var both := Gather(d, a + b);
    var u := Union(Gather(d, a), Gather(d, b));
    assert both.req == u.req;
    assert both.groups == u.groups;
    assert both.subgroups == u.subgroups;
    assert both.unknown == u.unknown;
  }

  lemma GatherSingle(d: Definition, p: string)
    ensures Gather(d, {p}) == Meaning(d, p)
  {
    var m := Meaning(d, p);
    assert p in {p};
    assert Gather(d, {p}).req == m.req;
    assert Gather(d, {p}).groups == m.groups;
    assert Gather(d, {p}).subgroups == m.subgroups;
    assert Gather(d, {p}).unknown == m.unknown;
  }

  lemma GatherEmpty(d: Definition)
    ensures Gather(d, {}) == Found({}, {}, {}, {}, false)
  {
  }

  lemma GatherAdd(d: Definition, p: string, ps: set<string>, m: Found, f: Found)
    requires Meaning(d, p) == m && Gather(d, ps) == f
    ensures Gather(d, {p} + ps) == Union(m, f)
  {
    GatherUnion(d, {p}, ps);
    GatherSingle(d, p);
  }

  /** Adding the piece of one more required item, or of one more subgroup. */
  lemma GatherOneMore(d: Definition, rs: set<string>, ss: set<string>, x: string, p: string, ps: set<string>)
    requires Gather(d, ps) == Found(rs - {x}, {}, ss - {x}, {}, false)
    requires Meaning(d, p) == Found(rs * {x}, {}, ss * {x}, {}, false)
    ensures Gather(d, {p} + ps) == Found(rs, {}, ss, {}, false)
  {
    GatherAdd(d, p, ps, Meaning(d, p), Gather(d, ps));
    assert rs * {x} + (rs - {x}) == rs;
    assert ss * {x} + (ss - {x}) == ss;
  }

  lemma ShownReqsAdd(d: Definition, long: bool, rs: set<string>, r: string)
    requires r in rs
    ensures ShownReqs(d, long, rs) == {ShownReq(d, long, r)} + ShownReqs(d, long, rs - {r})
  {
  }

  lemma ShownSubsAdd(d: Definition, long: bool, ss: set<string>, s: string)
    requires s in ss
    ensures ShownSubs(d, long, ss) == {ShownSub(d, long, s)} + ShownSubs(d, long, ss - {s})
  {
  }

  lemma ResolveShown(stl: map<string, string>, lts: map<string, string>, params: map<string, Params>,
                     aliases: map<string, seq<string>>, s: string, shown: string)
    requires Bilingual(stl, lts, params) && s in stl && (shown == s || shown == stl[s])
    ensures Resolve(shown, lts, stl, aliases) == Some({s})
  {
  }

  lemma RelIsNoName(s: string, rest: string)
    requires Name(s)
    ensures s != "REL TO " + rest && !StartsWith(s, "REL ")
  {
    if "REL " <= s {
      assert OccursAt(s, "REL ", 0);
      assert false;
    }
    assert "REL " <= "REL TO " + rest;
  }

  lemma ReqNameIsName(d: Definition, p: string)
    requires WellFormed(d) && p in ReqNames(d)
    ensures Name(p)
  {
    if p in d.reqLts {
      assert d.reqStl[d.reqLts[p]] == p;
    }
  }

  lemma SubNameIsName(d: Definition, p: string)
    requires WellFormed(d) && p in SubNames(d)
    ensures Name(p)
  {
    if p in d.subLts {
      assert d.subStl[d.subLts[p]] == p;
    }
  }

  lemma MeaningOfReq(d: Definition, long: bool, r: string)
    requires Bilingual(d.reqStl, d.reqLts, d.params) && r in d.reqStl
    ensures Meaning(d, ShownReq(d, long, r)) == Found({r}, {}, {}, {}, false)
  {
    ResolveShown(d.reqStl, d.reqLts, d.params, d.reqAliases, r, ShownReq(d, long, r));
  }

  lemma {:induction false} GatherReqs(d: Definition, long: bool, rs: set<string>)
    requires Bilingual(d.reqStl, d.reqLts, d.params) && rs <= d.reqStl.Keys
    ensures Gather(d, ShownReqs(d, long, rs)) == Found(rs, {}, {}, {}, false)
    decreases rs
  {
    if rs == {} {
      assert ShownReqs(d, long, rs) == {};
      GatherEmpty(d);
    } else {
      var r :| r in rs;
      GatherReqs(d, long, rs - {r});
      MeaningOfReq(d, long, r);
      ShownReqsAdd(d, long, rs, r);
      GatherOneMore(d, rs, {}, r, ShownReq(d, long, r), ShownReqs(d, long, rs - {r}));
    }
  }

  lemma MeaningOfSub(d: Definition, long: bool, s: string)
    requires WellFormed(d) && s in d.subStl
    ensures Meaning(d, ShownSub(d, long, s)) == Found({}, {}, {s}, {}, false)
  {
    var p := ShownSub(d, long, s);
    ResolveShown(d.subStl, d.subLts, d.params, d.subAliases, s, p);
    assert p in SubNames(d);
    assert p !in ReqNames(d);
    SubNameIsName(d, p);
    RelIsNoName(p, "");
  }

  /** Every subgroup is found again from the name it is shown by. */
  ghost predicate SubsReadable(d: Definition, long: bool, ss: set<string>) {
    forall s :: s in ss ==> Meaning(d, ShownSub(d, long, s)) == Found({}, {}, {s}, {}, false)
  }

  lemma {:induction false} GatherReadableSubs(d: Definition, long: bool, ss: set<string>)
    requires SubsReadable(d, long, ss)
    ensures Gather(d, ShownSubs(d, long, ss)) == Found({}, {}, ss, {}, false)
    decreases ss
  {
    if ss == {} {
      assert ShownSubs(d, long, ss) == {};
      GatherEmpty(d);
    } else {
      var s :| s in ss;
      GatherReadableSubs(d, long, ss - {s});
      ShownSubsAdd(d, long, ss, s);
      GatherOneMore(d, {}, ss, s, ShownSub(d, long, s), ShownSubs(d, long, ss - {s}));
    }
  }

  lemma GatherSubs(d: Definition, long: bool, ss: set<string>)
    requires WellFormed(d) && ss <= d.subStl.Keys
    ensures Gather(d, ShownSubs(d, long, ss)) == Found({}, {}, ss, {}, false)
  {
    forall s | s in ss ensures Meaning(d, ShownSub(d, long, s)) == Found({}, {}, {s}, {}, false) {
      MeaningOfSub(d, long, s);
    }
    GatherReadableSubs(d, long, ss);
  }
}
