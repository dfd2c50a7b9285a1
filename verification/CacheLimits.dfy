/** Where the cache of normalized texts shows: with dynamic groups, texts the printer made that do not mean what it
    printed. */
module CacheLimits {
  import opened Wrappers
  import opened Strings
  import opened Marking
  import MarkingText
  import opened MarkingRoundTrip
  import opened Normalization
  import opened Engine
  import opened Rereading
  import Validity
  import opened Classifier

  // ---------------------------------------------------------------- a text that parses to something else

  lemma GroupNameIsName(d: Definition, g: string)
    requires WellFormed(d) && (GroupOf(d, g).Some? || g in d.groupStl)
    ensures Name(g)
  {
    if g in d.groupLts {
      assert d.groupStl[d.groupLts[g]] == g;
    }
  }

  lemma NoSuchGroup(d: Definition, g: string)
    requires WellFormed(d) && Contains(g, "REL ")
    ensures GroupOf(d, g) == None && g !in d.groupStl
  {
    if GroupOf(d, g).Some? || g in d.groupStl {
      GroupNameIsName(d, g);
    }
  }

  /** A group that can only be a dynamic one, and that still holds "REL " when it has been read back once. */
  ghost predicate Nested(g: string) {
    IsUpper(g) && '/' !in g && ',' !in g && Trimmed(g) && Contains(Strip(Clean(g)), "REL ")
  }

  lemma NestedContains(g: string)
    requires Nested(g)
    ensures Contains(g, "REL ")
  {
    MarkingText.CleanFacts(g);
    StripTrimmed(g);
  }

  lemma NestedIsToken(d: Definition, g: string)
    requires WellFormed(d) && Nested(g)
    ensures DynamicToken(d, g) && g !in d.groupStl && GroupOf(d, Strip(Clean(g))) == None
  {
    NestedContains(g);
    NoSuchGroup(d, g);
    NoSuchGroup(d, Strip(Clean(g)));
  }

  lemma RereadOne(d: Definition, long: bool, g: string)
    requires g !in d.groupStl && GroupOf(d, Strip(Clean(g))) == None
    ensures var back := Reread(d, long, {g}); Known(d, back) == {} && Unknown(d, back) == {Strip(Clean(g))}
  {
    assert ShownGroup(d, long, g) == g;
    assert Reread(d, long, {g}) == {Strip(Clean(g))};
  }

  /** What the marking of one dynamic group means. */
  lemma DynamicMeaning(d: Definition, long: bool, g: string, shown: seq<string>)
    requires WellFormed(d) && Shows(d, long, {g}, shown) && g !in d.groupStl && g !in d.params
    requires GroupOf(d, Strip(Clean(g))) == None
    ensures GroupMeaning(d, long, shown) == Found({}, {}, {}, {Strip(Clean(g))}, false)
  {
    NotOneShown(d, long, {g}, shown, g);
    NoCollision(d, g);
    MeaningOfGroupText(d, long, {g}, shown);
    RereadOne(d, long, g);
    assert g in {g};
  }

  lemma NoCollision(d: Definition, g: string)
    requires g !in d.params
    ensures forall h :: {g} == {h} ==> !Collides(d, h)
  {
    forall h | {g} == {h} ensures !Collides(d, h) {
      assert h in {g};
    }
  }

  lemma CloseOfDynamic(d: Definition, p: Parts, m: Found, g: string)
    requires d.dynamicGroups && p.req == p.subgroups == {} && m == Found({}, {}, {}, {g}, false)
    ensures Close(d, Raise(d, p).lvl, Found(p.req + m.req, m.groups, m.subgroups + p.subgroups, m.unknown, m.bad),
            STANDARD)
            == Valid(Parts(p.lvl, {}, {g}, {}))
  {
    assert p.req + m.req == {} && m.subgroups + p.subgroups == {};
    assert RequiredGroups(d, {}) == {};
    assert m.groups + {g} + {} == {g};
  }

  /** The parts of a classification with one dynamic group and nothing else. */
  function OneGroup(lvl: nat, g: string): Parts { Parts(lvl, {}, {g}, {}) }

  lemma OneGroupIsClosed(d: Definition, lvl: nat, g: string)
    requires d.dynamicGroups && lvl in d.levelText && DynamicToken(d, g)
    ensures Closed(d, OneGroup(lvl, g)) && Fillable(d, OneGroup(lvl, g)) && Filled(d, OneGroup(lvl, g)).groups == {g}
  {
    ClosedIsFilled(d, OneGroup(lvl, g));
  }

  /** What the text of one nested dynamic group is read back as. */
  lemma NestedReadBack(d: Definition, long: bool, lvl: nat, g: string, t: string)
    requires WellFormed(d) && NoAutoSelect(d) && d.dynamicGroups && lvl in d.levelText && Nested(g) && g !in d.params
    requires PrintOf(d, long, OneGroup(lvl, g), t)
    ensures Parse(d, t, STANDARD) == Valid(OneGroup(lvl, Strip(Clean(g))))
  {
    NestedIsToken(d, g);
    OneGroupIsClosed(d, lvl, g);
    var shown := PrintOfMeaning(d, long, OneGroup(lvl, g), t, STANDARD);
    DynamicMeaning(d, long, g, shown);
    CloseOfDynamic(d, OneGroup(lvl, g), GroupMeaning(d, long, shown), Strip(Clean(g)));
  }

  lemma NestedPrinted(d: Definition, long: bool, lvl: nat, g: string, t: string)
    requires WellFormed(d) && d.dynamicGroups && lvl in d.levelText && Nested(g)
    requires PrintOf(d, long, OneGroup(lvl, g), t)
    ensures Printed(d, long, t)
  {
    NestedIsToken(d, g);
    OneGroupIsClosed(d, lvl, g);
  }

  lemma NotSound(d: Definition, t: string, lvl: nat, g: string)
    requires WellFormed(d) && Contains(g, "REL ") && Parse(d, t, STANDARD) == Valid(OneGroup(lvl, g))
    ensures !SoundBy(d, t, STANDARD)
  {
    NoSuchGroup(d, g);
    assert g in OneGroup(lvl, g).groups;
  }

  /** The text of such a group is answered from the cache unchanged, and parses to a group that normalizing it once more
      does not keep. */
  lemma CacheShows(d: Definition, long: bool, lvl: nat, g: string, t: string)
    requires WellFormed(d) && NoAutoSelect(d) && d.dynamicGroups && lvl in d.levelText && Nested(g) && g !in d.params
    requires PrintOf(d, long, OneGroup(lvl, g), t)
    ensures Printed(d, long, t) && Parse(d, t, STANDARD) == Valid(OneGroup(lvl, Strip(Clean(g))))
    ensures !Transparent(d, long, t, STANDARD)
  {
    NestedReadBack(d, long, lvl, g, t);
    NestedPrinted(d, long, lvl, g, t);
    NotSound(d, t, lvl, Strip(Clean(g)));
    CachedAnswer(d, long, t, STANDARD);
  }

  // ---------------------------------------------------------------- such a group

  lemma NotWithout(s: string, pat: string, k: nat)
    requires k < |pat| && pat[k] !in s
    ensures !Contains(s, pat)
  {
    forall i ensures !OccursAt(s, pat, i) {
      if 0 <= i <= |s| - |pat| {
        assert s[i + k] in s;
        assert s[i..i + |pat|][k] == s[i + k];
      }
    }
  }

  lemma RelDeleted(g: string, rest: string)
    requires g == "RREL " + rest && 'R' !in rest
    ensures Delete(g, "REL ") == "R" + rest
  {
    var rel := "REL ";
    NotWithout(rest, rel, 0);
    DeleteAbsent(rest, rel);
    DeletePrefix(rest, rel);
    assert rel + rest == g[1..];
    assert g[1] != rel[1];
  }

  lemma NestedCleaned(g: string)
    requires g == "RREL EL Y"
    ensures Clean(g) == "REL Y"
  {
    NotWithout(g, "REL TO ", 4);
    DeleteAbsent(g, "REL TO ");
    RelDeleted(g, "EL Y");
  }

  lemma SomeNested(g: string)
    requires g == "RREL EL Y"
    ensures Nested(g) && Strip(Clean(g)) == "REL Y"
  {
    NestedCleaned(g);
    StripTrimmed("REL Y");
    assert OccursAt("REL Y", "REL ", 0);
  }

  /** Hence every definition with dynamic groups has one. */
  lemma CacheShowsSomewhere(d: Definition, long: bool, lvl: nat) returns (t: string)
    requires WellFormed(d) && NoAutoSelect(d) && d.dynamicGroups && lvl in d.levelText && "RREL EL Y" !in d.params
    ensures Printed(d, long, t) && Parse(d, t, STANDARD) == Valid(OneGroup(lvl, "REL Y"))
    ensures !Transparent(d, long, t, STANDARD)
  {
    var g := "RREL EL Y";
    SomeNested(g);
    t := TextOfDynamic(d, long, lvl, g);
    CacheShows(d, long, lvl, g, t);
  }

  lemma TextOfDynamic(d: Definition, long: bool, lvl: nat, g: string) returns (t: string)
    requires WellFormed(d) && NoAutoSelect(d) && d.dynamicGroups && lvl in d.levelText && Nested(g)
    ensures PrintOf(d, long, OneGroup(lvl, g), t)
  {
    NestedIsToken(d, g);
    OneGroupIsClosed(d, lvl, g);
    t := SomeText(d, long, OneGroup(lvl, g));
  }

  // ---------------------------------------------------------------- the history of the cache decides

  lemma MoreDeleted(g: string, inner: string)
    requires g == "R" + inner && "RREL " <= inner
    ensures Delete(g, "REL ") == "R" + Delete(inner, "REL ")
  {
    var rel := "REL ";
    assert g[1] == inner[0] && inner[0] == 'R' && rel[1] == 'E';
    assert g[1..] == inner;
  }

  lemma Spelled(g: string, rest: string)
    requires g == "RRREL EL EL Y" && rest == "EL EL Y"
    ensures g == "R" + ("RREL " + rest) && "R" + ("R" + rest) == "RREL EL Y"
    ensures 'R' !in rest && 'T' !in g
  {
  }

  lemma DeletedOnce(g: string, inner: string, rest: string)
    requires g == "R" + inner && inner == "RREL " + rest && 'R' !in rest
    ensures Delete(g, "REL ") == "R" + ("R" + rest)
  {
    MoreDeleted(g, inner);
    RelDeleted(inner, rest);
  }

  lemma NoTo(g: string)
    requires 'T' !in g
    ensures Clean(g) == Delete(g, "REL ")
  {
    var to := "REL TO ";
    NotWithout(g, to, 4);
    DeleteAbsent(g, to);
  }

  lemma TwiceCleaned(g: string)
    requires g == "RRREL EL EL Y"
    ensures Clean(g) == "RREL EL Y"
  {
    var rest := "EL EL Y";
    Spelled(g, rest);
    NoTo(g);
    DeletedOnce(g, "RREL " + rest, rest);
  }

  lemma TwiceNested(g: string)
    requires g == "RRREL EL EL Y"
    ensures Nested(g) && Strip(Clean(g)) == "RREL EL Y"
  {
    TwiceCleaned(g);
    StripTrimmed("RREL EL Y");
    assert OccursAt("RREL EL Y", "REL ", 1);
  }

  /** Definitions in which these groups can be dynamic ones. */
  ghost predicate OpenTo(d: Definition, lvl: nat) {
    && WellFormed(d) && NoAutoSelect(d) && d.dynamicGroups && lvl in d.levelText
    && "RRREL EL EL Y" !in d.params && "RREL EL Y" !in d.params
  }

  /** A text whose normalized form is not read back as it was printed. */
  lemma NormalizedReadBack(d: Definition, long: bool, lvl: nat, raw: string, c: string)
    requires OpenTo(d, lvl) && PrintOf(d, true, OneGroup(lvl, "RRREL EL EL Y"), raw)
    requires Computed(d, long, raw, STANDARD, Valid(c))
    ensures Parse(d, raw, STANDARD) == Valid(OneGroup(lvl, "RREL EL Y"))
    ensures PrintOf(d, long, OneGroup(lvl, "RREL EL Y"), c) && Parse(d, c, STANDARD) == Valid(OneGroup(lvl, "REL Y"))
  {
    var g, h := "RRREL EL EL Y", "RREL EL Y";
    TwiceNested(g);
    NestedReadBack(d, true, lvl, g, raw);
    SomeNested(h);
    NestedReadBack(d, long, lvl, h, c);
  }

  /** It is valid only when it is in the cache. */
  lemma NormalizedNotValid(d: Definition, long: bool, lvl: nat, raw: string, c: string, hit: bool)
    requires OpenTo(d, lvl) && Validity.CleanLevels(d) && PrintOf(d, true, OneGroup(lvl, "RRREL EL EL Y"), raw)
    requires Computed(d, long, raw, STANDARD, Valid(c))
    ensures Validity.ValidMarking(d, hit, c) <==> hit
  {
    var h := "RREL EL Y";
    NormalizedReadBack(d, long, lvl, raw, c);
    Validity.NormalizedIsValid(d, long, raw, c, hit);
    NestedAgain(d, long, lvl, h, c);
    assert h in {h};
  }

  lemma NestedAgain(d: Definition, long: bool, lvl: nat, h: string, c: string)
    requires OpenTo(d, lvl) && h == "RREL EL Y" && PrintOf(d, long, OneGroup(lvl, h), c)
    requires Parse(d, c, STANDARD) == Valid(OneGroup(lvl, "REL Y"))
    ensures ReadAgain(d, OneGroup(lvl, h)) == Valid(OneGroup(lvl, "REL Y")) && !Printable(d, {"REL Y"})
  {
    SomeNested(h);
    NestedIsToken(d, h);
    OneGroupIsClosed(d, lvl, h);
    TextReadAgain(d, long, OneGroup(lvl, h), c);
    NotSound(d, c, lvl, "REL Y");
  }

  /** One engine normalizes `raw` first and has `t` in its cache, the other has not: the same two calls on `t` are
      answered differently. */
  method HistoryShows(d: Definition, unrestricted: string, raw: string, lvl: nat, hash: Hash)
    returns (t: string, kept: Result<string>, other: Result<string>, yes: bool, no: bool)
    requires OpenTo(d, lvl) && Validity.CleanLevels(d) && Lists(hash)
    requires PrintOf(d, true, OneGroup(lvl, "RRREL EL EL Y"), raw)
    ensures kept == Valid(t) && !SameMeaning(d, kept, other)
    ensures yes && !no
  {
    NestedParses(d, lvl, raw);
    t, kept, yes := Warm(d, unrestricted, raw, hash);
    NormalizedNotValid(d, true, lvl, raw, t, true);
    NormalizedNotValid(d, true, lvl, raw, t, false);
    other := Cold(d, unrestricted, t, hash);
    NotTransparent(d, lvl, raw, t, other);
    no := ColdIsValid(d, unrestricted, t, hash);
  }

  /** An engine that has normalized `raw`. */
  method Warm(d: Definition, unrestricted: string, raw: string, hash: Hash)
    returns (t: string, kept: Result<string>, yes: bool)
    requires WellFormed(d) && NoAutoSelect(d) && Lists(hash) && Parse(d, raw, STANDARD).Valid?
    ensures Computed(d, true, raw, STANDARD, Valid(t)) && Printed(d, true, t)
    ensures kept == Valid(t) && (yes <==> Validity.ValidMarking(d, true, t))
  {
    var engine := new Classification(d, unrestricted, [], [], hash);
    var r := engine.NormalizeOne(raw, false, hash);
    t := r.value;
    kept := engine.NormalizeOne(t, false, hash);
    yes := engine.IsValid(t, false, hash);
  }

  method Cold(d: Definition, unrestricted: string, t: string, hash: Hash) returns (r: Result<string>)
    requires WellFormed(d) && NoAutoSelect(d) && Lists(hash)
    ensures Computed(d, true, t, STANDARD, r)
  {
    var engine := new Classification(d, unrestricted, [], [], hash);
    r := engine.NormalizeOne(t, false, hash);
  }

  method ColdIsValid(d: Definition, unrestricted: string, t: string, hash: Hash) returns (ok: bool)
    requires WellFormed(d) && NoAutoSelect(d) && Lists(hash)
    ensures ok <==> Validity.ValidMarking(d, false, t)
  {
    var engine := new Classification(d, unrestricted, [], [], hash);
    ok := engine.IsValid(t, false, hash);
  }

  lemma NestedParses(d: Definition, lvl: nat, raw: string)
    requires OpenTo(d, lvl) && PrintOf(d, true, OneGroup(lvl, "RRREL EL EL Y"), raw)
    ensures Parse(d, raw, STANDARD).Valid?
  {
    TwiceNested("RRREL EL EL Y");
    NestedReadBack(d, true, lvl, "RRREL EL EL Y", raw);
  }

  lemma NotTransparent(d: Definition, lvl: nat, raw: string, t: string, other: Result<string>)
    requires OpenTo(d, lvl) && PrintOf(d, true, OneGroup(lvl, "RRREL EL EL Y"), raw)
    requires Computed(d, true, raw, STANDARD, Valid(t)) && Printed(d, true, t) && Computed(d, true, t, STANDARD, other)
    ensures !SameMeaning(d, Valid(t), other)
  {
    NormalizedReadBack(d, true, lvl, raw, t);
    SomeNested("RREL EL Y");
    NotSound(d, t, lvl, "REL Y");
    PrintedAgain(d, true, t, STANDARD, other);
  }

  // ---------------------------------------------------------------- a text that does not parse

  /** A group that is not configured but spells an item whose display name is no name of a group or subgroup. */
  ghost predicate SpellsUnread(d: Definition, g: string) {
    && Collides(d, g)
    && var shown := ParamsOf(d, g).solitary.value;
      SubOf(d, shown).None? && (shown in d.groupAliases ==> |d.groupAliases[shown]| != 1)
  }

  lemma UnreadMeaning(d: Definition, long: bool, g: string, shown: seq<string>)
    requires WellFormed(d) && SpellsUnread(d, g) && Shows(d, long, {g}, shown)
    ensures GroupMeaning(d, long, shown).bad
  {
    NotOneShown(d, long, {g}, shown, g);
    var h := OneShown(d, long, {g}, shown);
    assert h in {g};
    MarkingText.RelIsNoName(ParamsOf(d, g).solitary.value, "");
  }

  /** The text of such a group alone is answered from the cache, though without the cache it raises. */
  lemma CacheAnswersUnread(d: Definition, long: bool, p: Parts, t: string, g: string, o: Options)
    requires WellFormed(d) && NoAutoSelect(d) && Closed(d, p) && p.groups == {g} && SpellsUnread(d, g)
    requires PrintOf(d, long, p, t) && o.getDynamic && !o.autoSelect
    ensures Printed(d, long, t) && Parse(d, t, o).Invalid?
    ensures !Transparent(d, long, t, o)
  {
    ClosedIsFilled(d, p);
    var shown := PrintOfMeaning(d, long, p, t, o);
    UnreadMeaning(d, long, g, shown);
    CachedAnswer(d, long, t, o);
  }
}
