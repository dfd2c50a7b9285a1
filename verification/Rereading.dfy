/** What the text of a classification is read back as: a function of its parts, whatever the format of the text and the
    order of Python's sets. */
module Rereading {
  import opened Wrappers
  import opened Strings
  import opened Marking
  import MarkingText
  import opened MarkingRoundTrip
  import opened Normalization
  import Access
  import opened Engine

  // ---------------------------------------------------------------- the group marking

  /** What is left of the names of groups once "REL " is deleted from them. */
  ghost function Tidied(gs: set<string>): set<string> {
    set g | g in gs :: Strip(Clean(g))
  }

  /** What the marking of these groups means. */
  ghost function GroupsMean(d: Definition, gs: set<string>): Found {
    if g :| gs == {g} && Collides(d, g) then Meaning(d, ParamsOf(d, g).solitary.value)
    else Found({}, Known(d, Tidied(gs)), {}, Unknown(d, Tidied(gs)), false)
  }

  lemma TidiedName(d: Definition, long: bool, g: string)
    requires WellFormed(d) && Token(d, g)
    ensures GroupOf(d, Strip(Clean(ShownGroup(d, long, g)))) == GroupOf(d, Strip(Clean(g)))
    ensures ShownGroup(d, long, g) == g || GroupOf(d, Strip(Clean(g))).Some?
  {
    if g in d.groupStl {
      ConfiguredName(d, long, g);
      ConfiguredName(d, false, g);
    }
  }

  lemma ConfiguredName(d: Definition, long: bool, g: string)
    requires WellFormed(d) && g in d.groupStl
    ensures GroupOf(d, Strip(Clean(ShownGroup(d, long, g)))) == Some({g})
  {
    ShownGroupFacts(d, long, g);
    MarkingText.CleanFacts(ShownGroup(d, long, g));
  }

  /** Read in either format, each name stands for the same groups. */
  ghost predicate ReadAlike(d: Definition, long: bool, gs: set<string>) {
    forall g :: g in gs ==> GroupOf(d, Strip(Clean(ShownGroup(d, long, g)))) == GroupOf(d, Strip(Clean(g)))
  }

  lemma NamesReadAlike(d: Definition, long: bool, gs: set<string>)
    requires WellFormed(d) && forall g :: g in gs ==> Token(d, g)
    ensures ReadAlike(d, long, gs)
  {
    forall g | g in gs
      ensures GroupOf(d, Strip(Clean(ShownGroup(d, long, g)))) == GroupOf(d, Strip(Clean(g)))
    {
      TidiedName(d, long, g);
    }
  }

  lemma KnownOfReread(d: Definition, long: bool, gs: set<string>)
    requires ReadAlike(d, long, gs)
    ensures Known(d, Reread(d, long, gs)) <= Known(d, Tidied(gs))
  {
    forall x | x in Known(d, Reread(d, long, gs)) ensures x in Known(d, Tidied(gs)) {
      var t :| t in Reread(d, long, gs) && GroupOf(d, t).Some? && x in GroupOf(d, t).value;
      var g :| g in gs && t == Strip(Clean(ShownGroup(d, long, g)));
      assert Strip(Clean(g)) in Tidied(gs);
    }
  }

  lemma KnownOfTidied(d: Definition, long: bool, gs: set<string>)
    requires ReadAlike(d, long, gs)
    ensures Known(d, Tidied(gs)) <= Known(d, Reread(d, long, gs))
  {
    forall x | x in Known(d, Tidied(gs)) ensures x in Known(d, Reread(d, long, gs)) {
      var t :| t in Tidied(gs) && GroupOf(d, t).Some? && x in GroupOf(d, t).value;
      var g :| g in gs && t == Strip(Clean(g));
      assert Strip(Clean(ShownGroup(d, long, g))) in Reread(d, long, gs);
    }
  }

  lemma KnownTidied(d: Definition, long: bool, gs: set<string>)
    requires WellFormed(d) && forall g :: g in gs ==> Token(d, g)
    ensures Known(d, Reread(d, long, gs)) == Known(d, Tidied(gs))
  {
    NamesReadAlike(d, long, gs);
    KnownOfReread(d, long, gs);
    KnownOfTidied(d, long, gs);
  }

  lemma UnknownTidied(d: Definition, long: bool, gs: set<string>)
    requires WellFormed(d) && forall g :: g in gs ==> Token(d, g)
    ensures Unknown(d, Reread(d, long, gs)) == Unknown(d, Tidied(gs))
  {
    forall t | t in Unknown(d, Reread(d, long, gs)) ensures t in Unknown(d, Tidied(gs)) {
      var g :| g in gs && t == Strip(Clean(ShownGroup(d, long, g)));
      TidiedName(d, long, g);
    }
    forall t | t in Unknown(d, Tidied(gs)) ensures t in Unknown(d, Reread(d, long, gs)) {
      var g :| g in gs && t == Strip(Clean(g));
      TidiedName(d, long, g);
    }
  }

  lemma ConfiguredMean(d: Definition, gs: set<string>)
    requires WellFormed(d) && gs <= d.groupStl.Keys
    ensures Known(d, Tidied(gs)) == gs && Unknown(d, Tidied(gs)) == {}
  {
    RereadMeaning(d, false, gs);
    KnownTidied(d, false, gs);
    UnknownTidied(d, false, gs);
    AllConfigured(gs, d.groupStl.Keys);
  }

  lemma CollidingMean(d: Definition, long: bool, gs: set<string>, shown: seq<string>, g: string)
    requires WellFormed(d) && Shows(d, long, gs, shown) && gs == {g} && Collides(d, g)
    ensures GroupMeaning(d, long, shown) == Meaning(d, ParamsOf(d, g).solitary.value)
  {
    NotOneShown(d, long, gs, shown, g);
    var h := OneShown(d, long, gs, shown);
    assert h in gs;
  }

  lemma NothingMeans(d: Definition)
    ensures Known(d, Tidied({})) == {} && Unknown(d, Tidied({})) == {}
  {
    assert Tidied({}) == {};
  }

  /** In either format and in any order. */
  lemma GroupsShownMean(d: Definition, long: bool, gs: set<string>, shown: seq<string>)
    requires WellFormed(d) && Shows(d, long, gs, shown)
    ensures GroupMeaning(d, long, shown) == GroupsMean(d, gs)
  {
    if g :| gs == {g} && Collides(d, g) {
      OnlyGroup(d, gs, g);
      CollidingMean(d, long, gs, shown, g);
    } else if shown == [] {
      NoGroupsShown(d, long, gs, shown);
      NothingMeans(d);
    } else {
      MeaningOfGroupText(d, long, gs, shown);
      KnownTidied(d, long, gs);
      UnknownTidied(d, long, gs);
      if gs <= d.groupStl.Keys {
        ConfiguredMean(d, gs);
      }
    }
  }

  lemma OnlyGroup(d: Definition, gs: set<string>, g: string)
    requires gs == {g} && Collides(d, g)
    ensures GroupsMean(d, gs) == Meaning(d, ParamsOf(d, g).solitary.value)
  {
    forall h | gs == {h} ensures h == g {
      assert h in gs;
    }
  }

  // ---------------------------------------------------------------- the whole text

  /** What a text of `p` parses to. */
  ghost function ReadAgain(d: Definition, p: Parts): Result<Parts> {
    var m := GroupsMean(d, Filled(d, p).groups);
    Close(d, Raise(d, p).lvl, Found(p.req + m.req, m.groups, m.subgroups + p.subgroups, m.unknown, m.bad), STANDARD)
  }

  lemma TextReadAgain(d: Definition, long: bool, p: Parts, t: string)
    requires WellFormed(d) && NoAutoSelect(d) && Fillable(d, p) && PrintOf(d, long, p, t)
    ensures Parse(d, t, STANDARD) == ReadAgain(d, p)
  {
    var shown := PrintOfMeaning(d, long, p, t, STANDARD);
    GroupsShownMean(d, long, Filled(d, p).groups, shown);
  }

  /** Closed parts with the level and the required items of `p`; they are the printed ones exactly when the groups are
      printable. */
  lemma ReadAgainFacts(d: Definition, p: Parts)
    requires WellFormed(d) && NoAutoSelect(d) && Fillable(d, p)
    ensures ReadAgain(d, p) == Valid(Raise(d, Filled(d, p))) <==> Printable(d, Filled(d, p).groups)
    ensures ReadAgain(d, p).Valid? ==> Access.ReadAs(d, Raise(d, p), ReadAgain(d, p).value)
    ensures ReadAgain(d, p).Valid? ==> Access.Normal(d, ReadAgain(d, p).value)
  {
    var t := SomeText(d, true, p);
    TextReadAgain(d, true, p, t);
    PrintOfParses(d, true, p, t);
    if ReadAgain(d, p).Valid? {
      PrintOfKeeps(d, true, p, t, STANDARD);
      ParseCloses(d, t, STANDARD);
      SameFloor(d, p, ReadAgain(d, p).value);
    }
  }

  // ---------------------------------------------------------------- what a normalized text stands for

  /** The parts of the normalized form of `text`, which is `text` itself when that is in the cache. */
  ghost function Operand(d: Definition, hit: bool, text: string): Result<Parts> {
    var p := Parse(d, text, STANDARD);
    if hit || p.Invalid? then p else ReadAgain(d, p.value)
  }

  /** An operand is normal. For a marking whose groups survive printing it does not depend on the cache. */
  lemma OperandFacts(d: Definition, hit: bool, text: string)
    requires WellFormed(d) && NoAutoSelect(d) && (hit ==> Printed(d, true, text))
    ensures Operand(d, hit, text).Valid? ==> Access.Normal(d, Operand(d, hit, text).value)
    ensures Sound(d, text) ==> Operand(d, hit, text) == Valid(NormalParts(d, text))
    ensures !d.dynamicGroups && Parse(d, text, STANDARD).Valid? ==> Sound(d, text)
  {
    if Parse(d, text, STANDARD).Valid? {
      var p := Parse(d, text, STANDARD).value;
      ParseCloses(d, text, STANDARD);
      if !d.dynamicGroups {
        ConfiguredArePrintable(d, p);
      }
      if hit {
        PrintedIsRaised(d, true, text, STANDARD);
      } else {
        ClosedIsFilled(d, p);
        ReadAgainFacts(d, p);
      }
    }
  }

  /** The marking parses, and its normalized form comes from the cache, or its groups survive printing and its level
      is the one its required items ask for. */
  ghost predicate Kept(d: Definition, hit: bool, text: string) {
    var p := Parse(d, text, STANDARD);
    p.Valid? && (hit || (Printable(d, p.value.groups) && Raise(d, p.value) == p.value))
  }

  /** That is exactly when the normalized form has the parts of the marking itself. */
  lemma KeepsItsParts(d: Definition, hit: bool, text: string)
    requires WellFormed(d) && NoAutoSelect(d) && (hit ==> Printed(d, true, text)) && Parse(d, text, STANDARD).Valid?
    ensures Operand(d, hit, text) == Parse(d, text, STANDARD) <==> Kept(d, hit, text)
  {
    var p := Parse(d, text, STANDARD).value;
    if !hit {
      ParseCloses(d, text, STANDARD);
      ClosedIsFilled(d, p);
      ReadAgainFacts(d, p);
    }
  }

  /** A normalized answer parses to the operand. */
  lemma AnswerIsOperand(d: Definition, hit: bool, text: string, r: Result<string>)
    requires WellFormed(d) && NoAutoSelect(d)
    requires if hit then r == Valid(text) else Computed(d, true, text, STANDARD, r)
    ensures Operand(d, hit, text) == if r.Valid? then Parse(d, r.value, STANDARD) else Invalid
  {
    if !hit && r.Valid? {
      var p := Parse(d, text, STANDARD).value;
      ParseCloses(d, text, STANDARD);
      ClosedIsFilled(d, p);
      TextReadAgain(d, true, p, r.value);
    }
  }
}
