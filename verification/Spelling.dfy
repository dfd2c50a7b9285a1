/** Long names, aliases and display names are only other spellings: a marking parses the same with either. */
module Spelling {
  import opened Wrappers
  import opened Strings
  import opened Marking
  import opened MarkingText
  import opened MarkingRoundTrip
  import opened Normalization

  // ---------------------------------------------------------------- letter case

  lemma UpperJoined(a: string, b: string)
    ensures Upper(a + b) == Upper(a) + Upper(b)
  {
  }

  lemma UpperSlash(a: string)
    ensures '/' in Upper(a) <==> '/' in a
  {
    if '/' in Upper(a) {
      var i :| 0 <= i < |a| && Upper(a)[i] == '/';
      assert a[i] == '/';
    }
    if '/' in a {
      var i :| 0 <= i < |a| && a[i] == '/';
      assert Upper(a)[i] == '/';
    }
  }

  /** Markings are read without regard to case. */
  lemma AnyCase(d: Definition, text: string, o: Options)
    ensures Parse(d, Upper(text), o) == Parse(d, text, o)
  {
    UpperFixed(Upper(text));
    UpperFixed(text);
  }

  /** A marking with a level and sections is read level and sections apart. */
  lemma ParseApart(d: Definition, lv: string, rest: string, o: Options)
    requires '/' !in lv
    ensures Parse(d, lv + "//" + rest, o)
         == match LevelIndex(d, Upper(lv))
            case Invalid => Invalid
            case Valid(n) => Close(d, n, Gather(d, Pieces(Upper(rest))), o)
  {
    UpperSlash(lv);
    UpperFixed("//");
    UpperJoined(lv + "//", rest);
    UpperJoined(lv, "//");
    PartitionAt(Upper(lv), Upper(rest));
  }

  // ---------------------------------------------------------------- levels

  /** A short name, a long name, or an alias that is neither. */
  ghost predicate SpellsLevel(d: Definition, n: nat, x: string) {
    && n in d.levelText && IsUpper(x) && '/' !in x
    && (|| x == d.levelText[n]
        || (d.levelText[n] in d.levelStl && x == d.levelStl[d.levelText[n]])
        || (&& x in d.levelAliases && d.levelAliases[x] == d.levelText[n]
            && x !in d.levelOf && x !in d.levelLts && !IsLevelNumber(d, x)))
  }

  lemma LevelIsRead(d: Definition, n: nat, x: string)
    requires WellFormedLevels(d) && SpellsLevel(d, n, x)
    ensures LevelIndex(d, x) == Valid(n)
  {
    assert WellNamedLevel(d, n);
  }

  /** Any spelling of a level does. */
  lemma LevelSpelling(d: Definition, n: nat, x: string, y: string, rest: string, o: Options)
    requires WellFormed(d) && SpellsLevel(d, n, x) && SpellsLevel(d, n, y)
    ensures Parse(d, x + "//" + rest, o) == Parse(d, y + "//" + rest, o)
    ensures Parse(d, x + "//" + rest, o).Valid? ==> Parse(d, x + "//" + rest, o).value.lvl == n
  {
    LevelIsRead(d, n, x);
    LevelIsRead(d, n, y);
    UpperFixed(x);
    UpperFixed(y);
    ParseApart(d, x, rest, o);
    ParseApart(d, y, rest, o);
  }

  // ---------------------------------------------------------------- one piece for others

  /** The piece `p` may be written for the pieces `names`: the long name of an item for the short one, an alias of
      required items or of subgroups for those, the display name of a single group for the group. */
  ghost predicate Abbreviates(d: Definition, p: string, names: seq<string>) {
    || IsLongName(d.reqStl, p, names) || IsAlias(d.reqAliases, d.reqStl, d.reqLts, p, names)
    || IsLongName(d.subStl, p, names) || IsAlias(d.subAliases, d.subStl, d.subLts, p, names)
    || IsDisplayName(d, p, names)
  }

  ghost predicate IsLongName(stl: map<string, string>, p: string, names: seq<string>) {
    exists x :: x in stl && p == stl[x] && names == [x]
  }

  /** An alias that is no name itself. */
  predicate IsAlias(aliases: map<string, seq<string>>, stl: map<string, string>, lts: map<string, string>, p: string,
                    names: seq<string>)
  {
    p in aliases && p !in stl && p !in lts && names == aliases[p]
  }

  ghost predicate IsDisplayName(d: Definition, p: string, names: seq<string>) {
    exists g :: g in d.groupStl && ParamsOf(d, g).solitary == Some(p) && names == ["REL TO " + g]
  }

  lemma OnePiece(d: Definition, p: string, m: Found)
    requires Piece(p) && Meaning(d, p) == m
    ensures Gather(d, Pieces(p)) == m
  {
    PiecesSingle(p);
    GatherSingle(d, p);
  }

  lemma NameIsPiece(p: string)
    requires Name(p)
    ensures Piece(p)
  {
  }

  /** Required items written one by one. */
  lemma ReqsAre(d: Definition, names: seq<string>)
    requires WellFormed(d) && forall n :: n in names ==> n in d.reqStl
    ensures Gather(d, Pieces(Join("/", names))) == Found(Elems(names), {}, {}, {}, false)
    ensures IsUpper(Join("/", names))
  {
    forall n | n in names ensures Piece(n) {
      NameIsPiece(n);
    }
    PiecesOfJoined(names);
    GatherReqs(d, false, Elems(names));
    assert ShownReqs(d, false, Elems(names)) == Elems(names);
  }

  lemma SubsAre(d: Definition, names: seq<string>)
    requires WellFormed(d) && forall n :: n in names ==> n in d.subStl
    ensures Gather(d, Pieces(Join("/", names))) == Found({}, {}, Elems(names), {}, false)
    ensures IsUpper(Join("/", names))
  {
    forall n | n in names ensures Piece(n) {
      NameIsPiece(n);
    }
    PiecesOfJoined(names);
    GatherSubs(d, false, Elems(names));
    assert ShownSubs(d, false, Elems(names)) == Elems(names);
  }

  lemma GroupIs(d: Definition, g: string)
    requires WellFormed(d) && g in d.groupStl
    ensures Gather(d, Pieces("REL TO " + g)) == Found({}, {g}, {}, {}, false)
    ensures Piece("REL TO " + g)
  {
    assert Name(g);
    ResolveShown(d.groupStl, d.groupLts, d.params, d.groupAliases, g, g);
    OneToken(g);
    MeaningOfAlias(d, g);
    assert Join(", ", [g]) == g;
    OnePiece(d, "REL TO " + g, Found({}, {g}, {}, {}, false));
  }

  lemma ReqAliasIs(d: Definition, p: string)
    requires WellFormed(d) && p in d.reqAliases && p !in d.reqStl && p !in d.reqLts
    ensures Piece(p) && Gather(d, Pieces(p)) == Found(Elems(d.reqAliases[p]), {}, {}, {}, false)
  {
    NameIsPiece(p);
    OnePiece(d, p, Found(Elems(d.reqAliases[p]), {}, {}, {}, false));
  }

  lemma SubAliasIs(d: Definition, p: string)
    requires WellFormed(d) && p in d.subAliases && p !in d.subStl && p !in d.subLts
    ensures Piece(p) && Gather(d, Pieces(p)) == Found({}, {}, Elems(d.subAliases[p]), {}, false)
  {
    assert p in SubNames(d) && p !in ReqNames(d);
    SubNameIsName(d, p);
    NameIsPiece(p);
    RelIsNoName(p, "");
    OnePiece(d, p, Found({}, {}, Elems(d.subAliases[p]), {}, false));
  }

  /** An item written by either name. */
  lemma NameIs(d: Definition, long: bool, x: string)
    requires WellFormed(d)
    ensures x in d.reqStl ==>
      Piece(ShownReq(d, long, x)) && Gather(d, Pieces(ShownReq(d, long, x))) == Found({x}, {}, {}, {}, false)
    ensures x in d.subStl ==>
      Piece(ShownSub(d, long, x)) && Gather(d, Pieces(ShownSub(d, long, x))) == Found({}, {}, {x}, {}, false)
  {
    if x in d.reqStl {
      MeaningOfReq(d, long, x);
      OnePiece(d, ShownReq(d, long, x), Found({x}, {}, {}, {}, false));
    }
    if x in d.subStl {
      MeaningOfSub(d, long, x);
      OnePiece(d, ShownSub(d, long, x), Found({}, {}, {x}, {}, false));
    }
  }

  ghost predicate SamePieces(d: Definition, p: string, q: string) {
    IsUpper(p) && IsUpper(q) && Gather(d, Pieces(p)) == Gather(d, Pieces(q))
  }

  lemma LongReq(d: Definition, p: string, names: seq<string>)
    requires WellFormed(d) && IsLongName(d.reqStl, p, names)
    ensures SamePieces(d, p, Join("/", names))
  {
    var r :| r in d.reqStl && p == d.reqStl[r] && names == [r];
    NameIs(d, true, r);
    NameIs(d, false, r);
  }

  lemma LongSub(d: Definition, p: string, names: seq<string>)
    requires WellFormed(d) && IsLongName(d.subStl, p, names)
    ensures SamePieces(d, p, Join("/", names))
  {
    var s :| s in d.subStl && p == d.subStl[s] && names == [s];
    NameIs(d, true, s);
    NameIs(d, false, s);
  }

  lemma Display(d: Definition, p: string, names: seq<string>)
    requires WellFormed(d) && IsDisplayName(d, p, names)
    ensures SamePieces(d, p, Join("/", names))
  {
    var g :| g in d.groupStl && ParamsOf(d, g).solitary == Some(p) && names == ["REL TO " + g];
    MeaningOfSolitary(d, g, p);
    OnePiece(d, p, Found({}, {g}, {}, {}, false));
    GroupIs(d, g);
  }

  lemma ReqAliasOut(d: Definition, p: string)
    requires WellFormed(d) && p in d.reqAliases && p !in d.reqStl && p !in d.reqLts
    ensures SamePieces(d, p, Join("/", d.reqAliases[p]))
  {
    ReqAliasIs(d, p);
    ReqsAre(d, d.reqAliases[p]);
  }

  lemma SubAliasOut(d: Definition, p: string)
    requires WellFormed(d) && p in d.subAliases && p !in d.subStl && p !in d.subLts
    ensures SamePieces(d, p, Join("/", d.subAliases[p]))
  {
    SubAliasIs(d, p);
    SubsAre(d, d.subAliases[p]);
  }

  lemma AbbreviationMeans(d: Definition, p: string, names: seq<string>)
    requires WellFormed(d) && Abbreviates(d, p, names)
    ensures SamePieces(d, p, Join("/", names))
  {
    if IsLongName(d.reqStl, p, names) {
      LongReq(d, p, names);
    } else if IsAlias(d.reqAliases, d.reqStl, d.reqLts, p, names) {
      ReqAliasOut(d, p);
    } else if IsLongName(d.subStl, p, names) {
      LongSub(d, p, names);
    } else if IsAlias(d.subAliases, d.subStl, d.subLts, p, names) {
      SubAliasOut(d, p);
    } else {
      Display(d, p, names);
    }
  }

  /** A piece among others. */
  lemma PiecesAround(before: string, p: string, after: string)
    ensures Pieces(before + "/" + p + "/" + after) == Pieces(before) + Pieces(p) + Pieces(after)
  {
    PiecesConcat(before + "/" + p, after);
    PiecesConcat(before, p);
  }

  lemma UpperAround(before: string, p: string, after: string)
    requires IsUpper(p)
    ensures Upper(before + "/" + p + "/" + after) == Upper(before) + "/" + p + "/" + Upper(after)
  {
    UpperFixed(p);
    UpperFixed("/");
    UpperJoined(before + "/" + p + "/", after);
    UpperJoined(before + "/" + p, "/");
    UpperJoined(before + "/", p);
    UpperJoined(before, "/");
  }

  lemma SameAround(d: Definition, before: string, p: string, q: string, after: string)
    requires SamePieces(d, p, q)
    ensures Gather(d, Pieces(Upper(before + "/" + p + "/" + after)))
         == Gather(d, Pieces(Upper(before + "/" + q + "/" + after)))
  {
    UpperAround(before, p, after);
    UpperAround(before, q, after);
    PiecesAround(Upper(before), p, Upper(after));
    PiecesAround(Upper(before), q, Upper(after));
    var a, b := Pieces(Upper(before)), Pieces(Upper(after));
    GatherUnion(d, a + Pieces(p), b);
    GatherUnion(d, a + Pieces(q), b);
    GatherUnion(d, a, Pieces(p));
    GatherUnion(d, a, Pieces(q));
  }

  /** A marking means the same with an abbreviation as with the names written out, whatever stands around it. */
  lemma AbbreviationSpelledOut(d: Definition, lv: string, before: string, p: string, names: seq<string>, after: string,
                               o: Options)
    requires WellFormed(d) && Abbreviates(d, p, names) && '/' !in lv
    ensures Parse(d, lv + "//" + (before + "/" + p + "/" + after), o)
         == Parse(d, lv + "//" + (before + "/" + Join("/", names) + "/" + after), o)
  {
    AbbreviationMeans(d, p, names);
    SameAround(d, before, p, Join("/", names), after);
    ParseApart(d, lv, before + "/" + p + "/" + after, o);
    ParseApart(d, lv, before + "/" + Join("/", names) + "/" + after, o);
  }

  // ---------------------------------------------------------------- group names in a list

  /** The name `a` may be written in a group list for the groups `names`. */
  ghost predicate AbbreviatesGroups(d: Definition, a: string, names: seq<string>) {
    IsLongName(d.groupStl, a, names) || IsAlias(d.groupAliases, d.groupStl, d.groupLts, a, names)
  }

  lemma ShortGroup(d: Definition, g: string)
    requires WellFormed(d) && g in d.groupStl
    ensures Name(g) && GroupOf(d, g) == Some({g})
    ensures Name(d.groupStl[g]) && GroupOf(d, d.groupStl[g]) == Some({g})
  {
    ResolveShown(d.groupStl, d.groupLts, d.params, d.groupAliases, g, g);
    ResolveShown(d.groupStl, d.groupLts, d.params, d.groupAliases, g, d.groupStl[g]);
  }

  lemma GroupMeant(d: Definition, a: string, names: seq<string>)
    requires WellFormed(d) && IsLongName(d.groupStl, a, names)
    ensures Name(a) && GroupOf(d, a) == Some(Elems(names)) && names != []
    ensures forall n :: n in names ==> n in d.groupStl
  {
    var g :| g in d.groupStl && a == d.groupStl[g] && names == [g];
    ShortGroup(d, g);
    assert Elems(names) == {g};
  }

  lemma GroupsMeant(d: Definition, a: string, names: seq<string>)
    requires WellFormed(d) && AbbreviatesGroups(d, a, names)
    ensures Name(a) && GroupOf(d, a) == Some(Elems(names)) && names != []
    ensures forall n :: n in names ==> Name(n) && GroupOf(d, n) == Some({n})
  {
    if IsLongName(d.groupStl, a, names) {
      GroupMeant(d, a, names);
    }
    forall n | n in names ensures Name(n) && GroupOf(d, n) == Some({n}) {
      ShortGroup(d, n);
    }
  }

  /** The tokens of a group list, each cleaned. */
  function ListTokens(names: seq<string>): set<string> {
    set n | n in names :: Strip(Clean(n))
  }

  lemma TokensApart(x: seq<string>, mid: seq<string>, y: seq<string>)
    requires forall n :: n in mid ==> Name(n)
    ensures ListTokens(x + mid + y) == ListTokens(x) + Elems(mid) + ListTokens(y)
  {
    forall n | n in mid ensures Strip(Clean(n)) == n {
      CleanFacts(n);
      StripTrimmed(n);
    }
    assert forall n :: n in x + mid + y <==> n in x || n in mid || n in y;
  }

  lemma KnownUnion(d: Definition, a: set<string>, b: set<string>)
    ensures Known(d, a + b) == Known(d, a) + Known(d, b)
    ensures Unknown(d, a + b) == Unknown(d, a) + Unknown(d, b)
  {
  }

  lemma KnownThree(d: Definition, a: set<string>, b: set<string>, c: set<string>)
    ensures Known(d, a + b + c) == Known(d, a) + Known(d, b) + Known(d, c)
    ensures Unknown(d, a + b + c) == Unknown(d, a) + Unknown(d, b) + Unknown(d, c)
  {
    KnownUnion(d, a + b, c);
    KnownUnion(d, a, b);
  }

  lemma KnownNames(d: Definition, names: seq<string>)
    requires forall n :: n in names ==> GroupOf(d, n) == Some({n})
    ensures Known(d, Elems(names)) == Elems(names) && Unknown(d, Elems(names)) == {}
  {
    forall n | n in names ensures n in Known(d, Elems(names)) {
      assert n in Elems(names) && n in GroupOf(d, n).value;
    }
  }

  lemma SameGroups(d: Definition, x: seq<string>, a: string, names: seq<string>, y: seq<string>)
    requires WellFormed(d) && AbbreviatesGroups(d, a, names)
    ensures Known(d, ListTokens(x + [a] + y)) == Known(d, ListTokens(x + names + y))
    ensures Unknown(d, ListTokens(x + [a] + y)) == Unknown(d, ListTokens(x + names + y))
  {
    GroupsMeant(d, a, names);
    TokensApart(x, [a], y);
    TokensApart(x, names, y);
    assert Elems([a]) == {a};
    KnownOfOne(d, a, Elems(names));
    KnownNames(d, names);
    KnownThree(d, ListTokens(x), {a}, ListTokens(y));
    KnownThree(d, ListTokens(x), Elems(names), ListTokens(y));
  }

  lemma ListMeans(d: Definition, names: seq<string>)
    requires WellFormed(d) && names != [] && forall n :: n in names ==> ',' !in n && '/' !in n && IsUpper(n)
    ensures IsUpper("REL TO " + Join(", ", names))
    ensures Gather(d, Pieces("REL TO " + Join(", ", names)))
         == Found({}, Known(d, ListTokens(names)), {}, Unknown(d, ListTokens(names)), false)
  {
    MeaningOfList(d, names);
    PieceOfList(names);
    OnePiece(d, "REL TO " + Join(", ", names),
      Found({}, Known(d, ListTokens(names)), {}, Unknown(d, ListTokens(names)), false));
  }

  /** The same for the long name of a group, or an alias of groups, among the names of a group list. */
  lemma GroupsSpelledOut(d: Definition, lv: string, before: string, x: seq<string>, a: string, names: seq<string>,
                         y: seq<string>, after: string, o: Options)
    requires WellFormed(d) && AbbreviatesGroups(d, a, names) && '/' !in lv
    requires forall n :: n in x + y ==> ',' !in n && '/' !in n && IsUpper(n)
    ensures Parse(d, lv + "//" + (before + "/" + ("REL TO " + Join(", ", x + [a] + y)) + "/" + after), o)
         == Parse(d, lv + "//" + (before + "/" + ("REL TO " + Join(", ", x + names + y)) + "/" + after), o)
  {
    GroupsMeant(d, a, names);
    forall n | n in x + [a] + y || n in x + names + y ensures ',' !in n && '/' !in n && IsUpper(n) {
      assert n in x + y || n == a || n in names;
    }
    ListMeans(d, x + [a] + y);
    ListMeans(d, x + names + y);
    SameGroups(d, x, a, names, y);
    SameAround(d, before, "REL TO " + Join(", ", x + [a] + y), "REL TO " + Join(", ", x + names + y), after);
    ParseApart(d, lv, before + "/" + ("REL TO " + Join(", ", x + [a] + y)) + "/" + after, o);
    ParseApart(d, lv, before + "/" + ("REL TO " + Join(", ", x + names + y)) + "/" + after, o);
  }
}
