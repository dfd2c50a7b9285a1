/** The Classification object: its two caches of normalized texts and its public operations. */
module Classifier {
  import opened Wrappers
  import opened Marking
  import opened MarkingRoundTrip
  import opened Normalization
  import opened Access
  import opened Parsing
  import opened Printing
  import opened Engine
  import opened Formats
  import opened Rereading
  import opened TextLaws
  import Validity

  class Classification {
    const d: Definition
    const unrestricted: string
    var cache: set<string>
    var cacheShort: set<string>

    /** Every cached text was produced by the printer. */
    ghost predicate Coherent()
      reads this
    {
      && WellFormed(d) && NoAutoSelect(d)
      && AllPrinted(d, true, cache) && AllPrinted(d, false, cacheShort)
    }

    /** The caches are preloaded with the normalized forms of the listed combinations. */
    constructor (d: Definition, unrestricted: string, combinations: seq<string>, combinationsShort: seq<string>,
                 hash: Hash)
      requires WellFormed(d) && NoAutoSelect(d) && Lists(hash)
      ensures Coherent() && this.d == d && this.unrestricted == unrestricted
      ensures combinations == [] ==> cache == {}
    {
      this.d := d;
      this.unrestricted := unrestricted;
      cache, cacheShort := {}, {};
      new;
      var good := NormalizeAll(combinations, true, hash);
      cache := good;
      var goodShort := NormalizeAll(combinationsShort, false, hash);
      cacheShort := goodShort;
    }

    method NormalizeAll(texts: seq<string>, long: bool, hash: Hash) returns (good: set<string>)
      requires Coherent() && Lists(hash)
      modifies this
      ensures Coherent() && AllPrinted(d, long, good)
      ensures texts == [] ==> good == {}
      ensures !long ==> cache == old(cache)
    {
      good := {};
      for i := 0 to |texts|
        invariant Coherent() && AllPrinted(d, long, good)
        invariant texts == [] ==> good == {}
        invariant !long ==> cache == old(cache)
      {
        var r := Normalize(texts[i], long, false, true, false, hash);
        if r.Valid? {
          OneMorePrinted(d, long, good, r.value);
          good := good + {r.value};
        }
      }
    }

    /** A text in the cache is answered as it is; anything else is parsed and printed. The cached answer means what
        the computed one would exactly when the text parses and its groups are printable, hence always without
        dynamic groups. */
    method Normalize(text: string, long: bool, skipAuto: bool, getDynamic: bool, ignoreUnused: bool, hash: Hash)
      returns (r: Result<string>)
      requires Coherent() && Lists(hash)
      modifies this
      ensures Coherent()
      ensures r.Valid? ==> Printed(d, long, r.value)
      ensures cache == (if long then Remembered(old(cache), r) else old(cache))
      ensures cacheShort == (if long then old(cacheShort) else Remembered(old(cacheShort), r))
      ensures var o := Options(getDynamic, false, ignoreUnused);
              if getDynamic && text in (if long then old(cache) else old(cacheShort)) then
                && r == Valid(text)
                && (Transparent(d, long, text, o) <==> SoundBy(d, text, o))
                && (!d.dynamicGroups ==> SoundBy(d, text, o))
              else
                && Computed(d, long, text, o, r)
                && (r.Valid? ==> InFormat(d, long, Raise(d, Parse(d, text, o).value), r.value))
    {
      var o := Options(getDynamic, false, ignoreUnused);
      if text in (if long then cache else cacheShort) && getDynamic {
        assert Printed(d, long, text);
        CachedAnswer(d, long, text, o);
        AlreadyThere(if long then cache else cacheShort, text);
        return Valid(text);
      }
      r := Compute(d, text, long, skipAuto, o, hash);
      if r.Invalid? {
        return;
      }
      Remember(r.value, long);
    }

    method Remember(text: string, long: bool)
      requires Coherent() && Printed(d, long, text)
      modifies this
      ensures Coherent()
      ensures cache == (if long then old(cache) + {text} else old(cache))
      ensures cacheShort == (if long then old(cacheShort) else old(cacheShort) + {text})
    {
      OneMorePrinted(d, long, if long then cache else cacheShort, text);
      if long {
        cache := cache + {text};
      } else {
        cacheShort := cacheShort + {text};
      }
    }

    /** The one classification an operation is given, normalized. */
    method NormalizeOne(text: string, skipAuto: bool, hash: Hash) returns (r: Result<string>)
      requires Coherent() && Lists(hash)
      modifies this
      ensures Coherent() && cacheShort == old(cacheShort)
      ensures Given(d, text, old(cache), cache, r)
      ensures r.Valid? ==> Printed(d, true, r.value)
    {
      ghost var before := cache;
      r := Normalize(text, true, skipAuto, true, false, hash);
      AnswerIsOperand(d, text in before, text, r);
      AnswerLearns(d, text, before, r, cache);
    }

    /** Both classifications normalized, the first half of every binary operation. The second one finds what the
        first one left in the cache. */
    method NormalizeBoth(c1: string, c2: string, skipAuto: bool, hash: Hash) returns (r: Result<(string, string)>)
      requires Coherent() && Lists(hash)
      modifies this
      ensures Coherent() && cacheShort == old(cacheShort)
      ensures LearnsBoth(d, c1, c2, old(cache), cache)
      ensures BothMean(d, Operand(d, c1 in old(cache), c1), Operand(d, c2 in cache, c2), r)
    {
      ghost var before := cache;
      var n1 := NormalizeOne(c1, skipAuto, hash);
      ghost var between := cache;
      if n1.Invalid? {
        FirstRaises(d, c1, c2, before, between, cache);
        return Invalid;
      }
      var n2 := NormalizeOne(c2, skipAuto, hash);
      r := if n2.Valid? then Valid((n1.value, n2.value)) else Invalid;
      LearnsTwice(d, c1, c2, before, between, cache);
      TwoOperands(d, c1, c2, before, between, cache, n1.value, n2, r);
    }

    /** The maximum of two classifications; with one of them missing, the other in normalized form. */
    method MaxClassification(c1: Option<string>, c2: Option<string>, long: bool, hash: Hash) returns (r: Result<string>)
      requires Coherent() && Lists(hash)
      modifies this
      ensures Coherent() && cacheShort == old(cacheShort)
      ensures c1.None? && c2.None? ==> r == Valid(unrestricted) && cache == old(cache)
      ensures c1.Some? && c2.None? ==> Given(d, c1.value, old(cache), cache, r)
      ensures c1.None? && c2.Some? ==> Given(d, c2.value, old(cache), cache, r)
      ensures c1.Some? && c2.Some? ==> LearnsBoth(d, c1.value, c2.value, old(cache), cache)
      ensures c1.Some? && c2.Some? ==>
        MaxAnswer(d, long, Operand(d, c1.value in old(cache), c1.value), Operand(d, c2.value in cache, c2.value), r)
    {
      if c1.None? && c2.None? {
        return Valid(unrestricted);
      }
      if c1.None? || c2.None? {
        r := NormalizeOne(if c1.None? then c2.value else c1.value, false, hash);
        if r.Valid? && r.value == "" {
          PrintedNotEmpty(d, true, r.value);
          r := Valid(unrestricted);
        }
        return;
      }
      var n := NormalizeBoth(c1.value, c2.value, false, hash);
      if n.Invalid? {
        return Invalid;
      }
      r := MaxText(d, n.value, long, hash);
    }

    /** The answer of an operation given at most one classification. */
    method OnlyGiven(c1: Option<string>, c2: Option<string>, skipAuto: bool, hash: Hash)
      returns (r: Result<Option<string>>)
      requires Coherent() && Lists(hash) && (c1.None? || c2.None?)
      modifies this
      ensures Coherent() && cacheShort == old(cacheShort)
      ensures GivenBack(d, c1, c2, old(cache), cache, r)
    {
      if c1.None? && c2.None? {
        return Valid(None);
      }
      var n := NormalizeOne(if c1.None? then c2.value else c1.value, skipAuto, hash);
      r := if n.Valid? then Valid(Some(n.value)) else Invalid;
    }

    /** The minimum of two classifications. */
    method MinClassification(c1: Option<string>, c2: Option<string>, long: bool, hash: Hash)
      returns (r: Result<Option<string>>)
      requires Coherent() && Lists(hash)
      modifies this
      ensures Coherent() && cacheShort == old(cacheShort)
      ensures c1.None? || c2.None? ==> GivenBack(d, c1, c2, old(cache), cache, r)
      ensures c1.Some? && c2.Some? ==> LearnsBoth(d, c1.value, c2.value, old(cache), cache)
      ensures c1.Some? && c2.Some? ==>
        MinAnswer(d, long, Operand(d, c1.value in old(cache), c1.value), Operand(d, c2.value in cache, c2.value), r)
    {
      if c1.None? || c2.None? {
        r := OnlyGiven(c1, c2, false, hash);
        return;
      }
      var n := NormalizeBoth(c1.value, c2.value, false, hash);
      if n.Invalid? {
        return Invalid;
      }
      r := MinText(d, n.value, long, hash);
    }

    /** What two users share, with required and limited groups present. */
    method IntersectUserClassification(c1: Option<string>, c2: Option<string>, long: bool, hash: Hash)
      returns (r: Result<Option<string>>)
      requires Coherent() && Lists(hash)
      modifies this
      ensures Coherent() && cacheShort == old(cacheShort)
      ensures c1.None? || c2.None? ==> GivenBack(d, c1, c2, old(cache), cache, r)
      ensures c1.Some? && c2.Some? ==> LearnsBoth(d, c1.value, c2.value, old(cache), cache)
      ensures c1.Some? && c2.Some? ==>
        IntersectAnswer(d, long, Operand(d, c1.value in old(cache), c1.value),
          Operand(d, c2.value in cache, c2.value), r)
    {
      if c1.None? || c2.None? {
        r := OnlyGiven(c1, c2, true, hash);
        return;
      }
      var n := NormalizeBoth(c1.value, c2.value, true, hash);
      if n.Invalid? {
        return Invalid;
      }
      r := IntersectText(d, n.value, long, hash);
    }

    /** All that two users have. */
    method BuildUserClassification(c1: Option<string>, c2: Option<string>, long: bool, hash: Hash)
      returns (r: Result<Option<string>>)
      requires Coherent() && Lists(hash)
      modifies this
      ensures Coherent() && cacheShort == old(cacheShort)
      ensures c1.None? || c2.None? ==> GivenBack(d, c1, c2, old(cache), cache, r)
      ensures c1.Some? && c2.Some? ==> LearnsBoth(d, c1.value, c2.value, old(cache), cache)
      ensures c1.Some? && c2.Some? ==>
        BuildAnswer(d, long, Operand(d, c1.value in old(cache), c1.value), Operand(d, c2.value in cache, c2.value), r)
    {
      if c1.None? || c2.None? {
        r := OnlyGiven(c1, c2, true, hash);
        return;
      }
      var n := NormalizeBoth(c1.value, c2.value, true, hash);
      if n.Invalid? {
        return Invalid;
      }
      r := BuildText(d, n.value, long, hash);
    }

    /** The first half of `is_valid`: the marking has the parts of its own normalized form. */
    method KeepsParts(text: string, skipAuto: bool, hash: Hash) returns (ok: bool)
      requires Coherent() && Lists(hash)
      modifies this
      ensures Coherent() && cacheShort == old(cacheShort) && Learns(d, text, old(cache), cache)
      ensures ok <==> Kept(d, text in old(cache), text)
    {
      ghost var hit := text in cache;
      var n := NormalizeOne(text, skipAuto, hash);
      if n.Invalid? {
        return false;
      }
      ok := SameParts(d, hit, text, n.value, hash);
    }

    /** `is_valid`. Its answer depends on whether the marking is in the cache. */
    method IsValid(text: string, skipAuto: bool, hash: Hash) returns (ok: bool)
      requires Coherent() && Lists(hash)
      modifies this
      ensures Coherent() && cacheShort == old(cacheShort) && Learns(d, text, old(cache), cache)
      ensures ok <==> Validity.ValidMarking(d, text in old(cache), text)
    {
      ok := KeepsParts(text, skipAuto, hash);
      if ok {
        ok := Validity.WellShaped(d, text);
      }
    }

    /** The outer result is Invalid when a marking does not parse and `ignoreInvalid` is not set. */
    method IsAccessible(user: string, text: Option<string>, ignoreInvalid: bool, hash: Hash) returns (r: Result<bool>)
      requires Coherent() && Lists(hash)
      ensures text.None? ==> r == Valid(true)
      ensures text.Some? ==>
        match (Parse(d, user, STANDARD), Parse(d, text.value, STANDARD))
        case (Valid(u), Valid(p)) => r == Valid(Accessible(u, p))
        case _ => r == if ignoreInvalid then Valid(false) else Invalid
    {
      if text.None? {
        return Valid(true);
      }
      WellFormedIsUsable(d);
      var u := GetParts(d, user, true, STANDARD, hash);
      var p := GetParts(d, text.value, true, STANDARD, hash);
      if u.Invalid? || p.Invalid? {
        return if ignoreInvalid then Valid(false) else Invalid;
      }
      ParseCloses(d, user, STANDARD);
      ParseCloses(d, text.value, STANDARD);
      AccessibleByName(d, Parse(d, user, STANDARD).value, Parse(d, text.value, STANDARD).value);
      var ok := u.value.lvl >= p.value.lvl
        && Elems(p.value.req) <= Elems(u.value.req)
        && CanSeeGroups(Elems(u.value.groups), Elems(p.value.groups))
        && CanSeeGroups(Elems(u.value.subgroups), Elems(p.value.subgroups));
      r := Valid(ok);
    }
  }

  /** A cache after one answer. */
  function Remembered(cache: set<string>, r: Result<string>): set<string> {
    if r.Valid? then cache + {r.value} else cache
  }

  lemma AlreadyThere(cache: set<string>, text: string)
    requires text in cache
    ensures Remembered(cache, Valid(text)) == cache
  {
  }

  // ---------------------------------------------------------------- what the cache learns

  /** The cache after a marking was normalized: a text of its parts was added, unless it was there or does not parse. */
  ghost predicate Learns(d: Definition, text: string, before: set<string>, after: set<string>) {
    if text in before || Parse(d, text, STANDARD).Invalid? then after == before
    else exists t :: PrintOf(d, true, Parse(d, text, STANDARD).value, t) && after == before + {t}
  }

  /** After two, of which the second is not tried when the first raises. */
  ghost predicate LearnsBoth(d: Definition, c1: string, c2: string, before: set<string>, after: set<string>) {
    if c1 !in before && Parse(d, c1, STANDARD).Invalid? then after == before
    else exists between :: Learns(d, c1, before, between) && Learns(d, c2, between, after)
  }

  lemma LearnsTwice(d: Definition, c1: string, c2: string, before: set<string>, between: set<string>,
                    after: set<string>)
    requires Learns(d, c1, before, between) && Learns(d, c2, between, after)
    requires c1 in before || Parse(d, c1, STANDARD).Valid?
    ensures LearnsBoth(d, c1, c2, before, after)
  {
  }

  lemma FirstRaises(d: Definition, c1: string, c2: string, before: set<string>, between: set<string>,
                    after: set<string>)
    requires WellFormed(d) && NoAutoSelect(d) && AllPrinted(d, true, before) && AllPrinted(d, true, after)
    requires Given(d, c1, before, between, Invalid) && after == between
    ensures LearnsBoth(d, c1, c2, before, after)
    ensures BothMean(d, Operand(d, c1 in before, c1), Operand(d, c2 in after, c2), Invalid)
  {
    OperandIsNormal(d, before, c1);
    OperandIsNormal(d, after, c2);
  }

  lemma TwoOperands(d: Definition, c1: string, c2: string, before: set<string>, between: set<string>,
                    after: set<string>,
                    n1: string, n2: Result<string>, r: Result<(string, string)>)
    requires WellFormed(d) && NoAutoSelect(d) && AllPrinted(d, true, before) && AllPrinted(d, true, after)
    requires Given(d, c1, before, between, Valid(n1)) && Given(d, c2, between, after, n2)
    requires r == if n2.Valid? then Valid((n1, n2.value)) else Invalid
    ensures BothMean(d, Operand(d, c1 in before, c1), Operand(d, c2 in after, c2), r)
  {
    LateHit(d, c2, between, after);
    OperandIsNormal(d, before, c1);
    OperandIsNormal(d, after, c2);
  }

  lemma AnswerLearns(d: Definition, text: string, before: set<string>, r: Result<string>, after: set<string>)
    requires after == Remembered(before, r)
    requires if text in before then r == Valid(text) else Computed(d, true, text, STANDARD, r)
    ensures Learns(d, text, before, after)
  {
    if text in before {
      AlreadyThere(before, text);
    }
  }

  /** A marking that is its own normalized form stands for the same parts before and after it is in the cache. */
  lemma LateHit(d: Definition, text: string, before: set<string>, after: set<string>)
    requires WellFormed(d) && NoAutoSelect(d) && Learns(d, text, before, after)
    ensures Operand(d, text in after, text) == Operand(d, text in before, text)
  {
    if text !in before && text in after {
      assert Parse(d, text, STANDARD).Valid?;
      AnswerIsOperand(d, false, text, Valid(text));
    }
  }

  lemma OperandIsNormal(d: Definition, cache: set<string>, text: string)
    requires WellFormed(d) && NoAutoSelect(d) && AllPrinted(d, true, cache)
    ensures IsNormal(d, Operand(d, text in cache, text))
  {
    OperandFacts(d, text in cache, text);
  }

  ghost predicate IsNormal(d: Definition, p: Result<Parts>) {
    p.Valid? ==> Normal(d, p.value)
  }

  /** The answer for one classification: it stands for the parts of the text that comes back. */
  ghost predicate Given(d: Definition, text: string, before: set<string>, after: set<string>, r: Result<string>) {
    && (if text in before then r == Valid(text) else Computed(d, true, text, STANDARD, r))
    && Operand(d, text in before, text) == (if r.Valid? then Parse(d, r.value, STANDARD) else Invalid)
    && after == Remembered(before, r) && Learns(d, text, before, after)
  }

  /** The answer when one classification is missing: the other one, normalized. */
  ghost predicate GivenBack(d: Definition, c1: Option<string>, c2: Option<string>, before: set<string>,
                            after: set<string>,
                            r: Result<Option<string>>)
  {
    if c1.None? && c2.None? then r == Valid(None) && after == before
    else
      && (r.Valid? ==> r.value.Some?)
      && Given(d, if c1.None? then c2.value else c1.value, before, after, if r.Valid? then Valid(r.value.value)
         else Invalid)
  }

  /** Two normalized texts stand for the parts `x` and `y`. */
  ghost predicate BothMean(d: Definition, x: Result<Parts>, y: Result<Parts>, n: Result<(string, string)>) {
    && IsNormal(d, x) && IsNormal(d, y)
    && (n.Valid? ==> x == Parse(d, n.value.0, STANDARD) && y == Parse(d, n.value.1, STANDARD))
    && (n.Invalid? ==> x.Invalid? || y.Invalid?)
  }

  // ---------------------------------------------------------------- from two normalized texts to the answer

  /** Two classifications in normal form, and their lists in one format. */
  ghost predicate Both(d: Definition, long: bool, p: Parts, a: Lists4, q: Parts, b: Lists4) {
    Normal(d, p) && Normal(d, q) && ListsOf(d, long, p, a) && ListsOf(d, long, q, b)
  }

  ghost predicate NormalText(d: Definition, t: string) {
    IsNormal(d, Parse(d, t, STANDARD))
  }

  method ListsOfBoth(d: Definition, n: (string, string), long: bool, hash: Hash) returns (r: Result<(Lists4, Lists4)>)
    requires WellFormed(d) && NoAutoSelect(d) && Lists(hash)
    ensures r.Valid? <==> Parse(d, n.0, STANDARD).Valid? && Parse(d, n.1, STANDARD).Valid?
    ensures r.Valid? && NormalText(d, n.0) && NormalText(d, n.1) ==>
      Both(d, long, Parse(d, n.0, STANDARD).value, r.value.0, Parse(d, n.1, STANDARD).value, r.value.1)
  {
    WellFormedIsUsable(d);
    var a := GetParts(d, n.0, long, STANDARD, hash);
    if a.Invalid? {
      return Invalid;
    }
    var b := GetParts(d, n.1, long, STANDARD, hash);
    r := if b.Valid? then Valid((a.value, b.value)) else Invalid;
  }

  method MaxText(d: Definition, n: (string, string), long: bool, hash: Hash) returns (r: Result<string>)
    requires WellFormed(d) && NoAutoSelect(d) && Lists(hash) && NormalText(d, n.0) && NormalText(d, n.1)
    ensures MaxAnswer(d, long, Parse(d, n.0, STANDARD), Parse(d, n.1, STANDARD), r)
  {
    var l := ListsOfBoth(d, n, long, hash);
    if l.Invalid? {
      return Invalid;
    }
    WellFormedIsUsable(d);
    r := CombineMax(d, l.value.0, l.value.1, long, hash);
    MaxAnswered(d, Parse(d, n.0, STANDARD).value, l.value.0, Parse(d, n.1, STANDARD).value, l.value.1, r, long, hash);
  }

  lemma MaxAnswered(d: Definition, p: Parts, a: Lists4, q: Parts, b: Lists4, r: Result<string>, long: bool, hash: Hash)
    requires WellFormed(d) && NoAutoSelect(d) && Lists(hash)
    requires Both(d, long, p, a, q, b) && PrintsMax(d, a, b, long, hash, r)
    ensures MaxAnswer(d, long, Valid(p), Valid(q), r)
  {
    MaxShown(d, p, q, a, b, r, long, hash);
    if r.Valid? {
      MaxTexts(d, long, p, q, r.value);
    }
  }

  /** The lists of a text, printed, as an operation answers it. */
  method Answer(d: Definition, l: Lists4, long: bool, skipAuto: bool, ghost p: Parts, hash: Hash)
    returns (r: Result<Option<string>>)
    requires WellFormed(d) && NoAutoSelect(d) && Lists(hash)
    ensures Named(d, p) && ListsOf(d, long, p, l) ==> AnswersPrint(d, long, p, r)
  {
    WellFormedIsUsable(d);
    var n := GetText(d, l, long, skipAuto, hash);
    r := if n.Valid? then Valid(Some(n.value)) else Invalid;
    if Named(d, p) && ListsOf(d, long, p, l) {
      CanPrint(d, long, p, l, skipAuto, hash);
    }
  }

  method MinText(d: Definition, n: (string, string), long: bool, hash: Hash) returns (r: Result<Option<string>>)
    requires WellFormed(d) && NoAutoSelect(d) && Lists(hash) && NormalText(d, n.0) && NormalText(d, n.1)
    ensures MinAnswer(d, long, Parse(d, n.0, STANDARD), Parse(d, n.1, STANDARD), r)
  {
    var l := ListsOfBoth(d, n, long, hash);
    if l.Invalid? {
      return Invalid;
    }
    var a, b := l.value.0, l.value.1;
    ghost var p, q := Parse(d, n.0, STANDARD).value, Parse(d, n.1, STANDARD).value;
    var m := Lists4(Min(a.lvl, b.lvl), hash(Elems(a.req) * Elems(b.req)),
                    hash(MinGroups(Elems(a.groups), Elems(b.groups))),
                    hash(MinGroups(Elems(a.subgroups), Elems(b.subgroups))));
    r := Answer(d, m, long, false, MinOf(p, q), hash);
    MinListed(d, p, a, q, b, m, long, hash);
    MinTexts(d, long, p, q, r.value.value);
  }

  lemma MinListed(d: Definition, p: Parts, a: Lists4, q: Parts, b: Lists4, m: Lists4, long: bool, hash: Hash)
    requires WellFormed(d) && Lists(hash) && Both(d, long, p, a, q, b)
    requires m == Lists4(Min(a.lvl, b.lvl), hash(Elems(a.req) * Elems(b.req)),
                         hash(MinGroups(Elems(a.groups), Elems(b.groups))),
                         hash(MinGroups(Elems(a.subgroups), Elems(b.subgroups))))
    ensures Named(d, MinOf(p, q)) && ListsOf(d, long, MinOf(p, q), m)
  {
    CombineShown(d, long, p, q);
    MeetShown(d, long, p, q);
    CombinedAreNamed(d, p, q);
  }

  method IntersectText(d: Definition, n: (string, string), long: bool, hash: Hash) returns (r: Result<Option<string>>)
    requires WellFormed(d) && NoAutoSelect(d) && Lists(hash) && NormalText(d, n.0) && NormalText(d, n.1)
    ensures IntersectAnswer(d, long, Parse(d, n.0, STANDARD), Parse(d, n.1, STANDARD), r)
  {
    var l := ListsOfBoth(d, n, long, hash);
    if l.Invalid? {
      return Invalid;
    }
    var a, b := l.value.0, l.value.1;
    ghost var p, q := Parse(d, n.0, STANDARD).value, Parse(d, n.1, STANDARD).value;
    var m := Lists4(Min(a.lvl, b.lvl), hash(Elems(a.req) * Elems(b.req)),
                    hash(Elems(a.groups) * Elems(b.groups)),
                    hash(Elems(a.subgroups) * Elems(b.subgroups)));
    r := Answer(d, m, long, true, IntersectOf(p, q), hash);
    IntersectListed(d, p, a, q, b, m, long, hash);
    IntersectTexts(d, long, p, q, r.value.value);
  }

  lemma IntersectListed(d: Definition, p: Parts, a: Lists4, q: Parts, b: Lists4, m: Lists4, long: bool, hash: Hash)
    requires WellFormed(d) && Lists(hash) && Both(d, long, p, a, q, b)
    requires m == Lists4(Min(a.lvl, b.lvl), hash(Elems(a.req) * Elems(b.req)),
                         hash(Elems(a.groups) * Elems(b.groups)),
                         hash(Elems(a.subgroups) * Elems(b.subgroups)))
    ensures Named(d, IntersectOf(p, q)) && ListsOf(d, long, IntersectOf(p, q), m)
  {
    MeetShown(d, long, p, q);
    CombinedAreNamed(d, p, q);
  }

  method BuildText(d: Definition, n: (string, string), long: bool, hash: Hash) returns (r: Result<Option<string>>)
    requires WellFormed(d) && NoAutoSelect(d) && Lists(hash) && NormalText(d, n.0) && NormalText(d, n.1)
    ensures BuildAnswer(d, long, Parse(d, n.0, STANDARD), Parse(d, n.1, STANDARD), r)
  {
    var l := ListsOfBoth(d, n, long, hash);
    if l.Invalid? {
      return Invalid;
    }
    var a, b := l.value.0, l.value.1;
    ghost var p, q := Parse(d, n.0, STANDARD).value, Parse(d, n.1, STANDARD).value;
    var m := Lists4(Max(a.lvl, b.lvl), hash(Elems(a.req) + Elems(b.req)),
                    hash(Elems(a.groups) + Elems(b.groups)),
                    hash(Elems(a.subgroups) + Elems(b.subgroups)));
    r := Answer(d, m, long, true, BuildOf(p, q), hash);
    BuildListed(d, p, a, q, b, m, long, hash);
    BuildTexts(d, long, p, q, r.value.value);
  }

  lemma BuildListed(d: Definition, p: Parts, a: Lists4, q: Parts, b: Lists4, m: Lists4, long: bool, hash: Hash)
    requires WellFormed(d) && Lists(hash) && Both(d, long, p, a, q, b)
    requires m == Lists4(Max(a.lvl, b.lvl), hash(Elems(a.req) + Elems(b.req)),
                         hash(Elems(a.groups) + Elems(b.groups)),
                         hash(Elems(a.subgroups) + Elems(b.subgroups)))
    ensures Named(d, BuildOf(p, q)) && ListsOf(d, long, BuildOf(p, q), m)
  {
    MeetShown(d, long, p, q);
    CombinedAreNamed(d, p, q);
    ListsInList(d, long, BuildOf(p, q), hash);
    assert m == ListsIn(d, long, BuildOf(p, q), hash);
  }

  /** Comparing the parts of a marking with those of its normalized form. */
  method SameParts(d: Definition, ghost hit: bool, text: string, n: string, hash: Hash) returns (ok: bool)
    requires WellFormed(d) && NoAutoSelect(d) && Lists(hash) && (hit ==> Printed(d, true, text))
    requires Operand(d, hit, text) == Parse(d, n, STANDARD)
    ensures ok <==> Kept(d, hit, text)
  {
    WellFormedIsUsable(d);
    var m := GetParts(d, n, true, STANDARD, hash);
    var l := GetParts(d, text, true, STANDARD, hash);
    if m.Invalid? || l.Invalid? {
      NotKept(d, hit, text, n);
      return false;
    }
    NamesDecide(d, hit, text, n, l.value, m.value);
    ok := SameLists(l.value, m.value);
  }

  lemma NamesDecide(d: Definition, hit: bool, text: string, n: string, l: Lists4, m: Lists4)
    requires WellFormed(d) && NoAutoSelect(d) && (hit ==> Printed(d, true, text))
    requires Parse(d, text, STANDARD).Valid? && Parse(d, n, STANDARD).Valid?
    requires Operand(d, hit, text) == Parse(d, n, STANDARD)
    requires ListsOf(d, true, Parse(d, text, STANDARD).value, l) && ListsOf(d, true, Parse(d, n, STANDARD).value, m)
    ensures SameLists(l, m) <==> Kept(d, hit, text)
  {
    KeepsItsParts(d, hit, text);
    ParseCloses(d, n, STANDARD);
    ParseCloses(d, text, STANDARD);
    SameByName(d, Parse(d, text, STANDARD).value, l, Parse(d, n, STANDARD).value, m);
  }

  lemma NotKept(d: Definition, hit: bool, text: string, n: string)
    requires WellFormed(d) && NoAutoSelect(d) && (hit ==> Printed(d, true, text))
    requires Parse(d, text, STANDARD).Invalid? || Parse(d, n, STANDARD).Invalid?
    requires Operand(d, hit, text) == Parse(d, n, STANDARD)
    ensures !Kept(d, hit, text)
  {
    if Parse(d, text, STANDARD).Valid? {
      KeepsItsParts(d, hit, text);
    }
  }

  predicate SameLists(l: Lists4, m: Lists4) {
    && l.lvl == m.lvl
    && Elems(l.req) == Elems(m.req)
    && Elems(l.groups) == Elems(m.groups)
    && Elems(l.subgroups) == Elems(m.subgroups)
  }

  lemma SameByName(d: Definition, p: Parts, l: Lists4, q: Parts, m: Lists4)
    requires WellFormed(d) && Closed(d, p) && Closed(d, q) && ListsOf(d, true, p, l) && ListsOf(d, true, q, m)
    ensures SameLists(l, m) <==> p == q
  {
    EqualByName(d, p, q);
  }

  /** Comparing long names decides whether parts are the same. */
  lemma EqualByName(d: Definition, p: Parts, q: Parts)
    requires WellFormed(d) && Closed(d, p) && Closed(d, q)
    ensures p == q <==>
      && p.lvl == q.lvl
      && ShownReqs(d, true, p.req) == ShownReqs(d, true, q.req)
      && ShownGroups(d, true, p.groups) == ShownGroups(d, true, q.groups)
      && ShownSubs(d, true, p.subgroups) == ShownSubs(d, true, q.subgroups)
  {
    SameReqs(d, p.req, q.req);
    SameGroups(d, p.groups, q.groups);
    SameSubs(d, p.subgroups, q.subgroups);
  }

  lemma SameReqs(d: Definition, a: set<string>, b: set<string>)
    requires Bilingual(d.reqStl, d.reqLts, d.params) && a <= d.reqStl.Keys && b <= d.reqStl.Keys
    ensures ShownReqs(d, true, a) == ShownReqs(d, true, b) <==> a == b
  {
    ShownReqMeet(d, true, a, b);
    ShownReqMeet(d, true, b, a);
  }

  lemma SameGroups(d: Definition, a: set<string>, b: set<string>)
    requires WellFormed(d) && forall g :: g in a + b ==> Token(d, g)
    ensures ShownGroups(d, true, a) == ShownGroups(d, true, b) <==> a == b
  {
    TokensInjective(d, true, a + b);
    SameShownGroups(d, a, b);
  }

  lemma SameShownGroups(d: Definition, a: set<string>, b: set<string>)
    requires forall x, y :: x in a + b && y in a + b && ShownGroup(d, true, x) == ShownGroup(d, true, y) ==> x == y
    ensures ShownGroups(d, true, a) == ShownGroups(d, true, b) ==> a == b
  {
    if ShownGroups(d, true, a) == ShownGroups(d, true, b) {
      GroupsShown(d, a, b);
      GroupsShown(d, b, a);
    }
  }

  lemma GroupsShown(d: Definition, a: set<string>, b: set<string>)
    requires forall x, y :: x in a + b && y in a + b && ShownGroup(d, true, x) == ShownGroup(d, true, y) ==> x == y
    requires ShownGroups(d, true, a) <= ShownGroups(d, true, b)
    ensures a <= b
  {
    forall x | x in a ensures x in b {
      assert ShownGroup(d, true, x) in ShownGroups(d, true, b);
    }
  }

  lemma SameSubs(d: Definition, a: set<string>, b: set<string>)
    requires Bilingual(d.subStl, d.subLts, d.params) && a <= d.subStl.Keys && b <= d.subStl.Keys
    ensures ShownSubs(d, true, a) == ShownSubs(d, true, b) <==> a == b
  {
    if ShownSubs(d, true, a) == ShownSubs(d, true, b) {
      SubsShown(d, a, b);
      SubsShown(d, b, a);
    }
  }

  lemma SubsShown(d: Definition, a: set<string>, b: set<string>)
    requires Bilingual(d.subStl, d.subLts, d.params) && a <= d.subStl.Keys && b <= d.subStl.Keys
    requires ShownSubs(d, true, a) <= ShownSubs(d, true, b)
    ensures a <= b
  {
    forall x | x in a ensures x in b {
      assert ShownSub(d, true, x) in ShownSubs(d, true, b);
      var y :| y in b && ShownSub(d, true, y) == ShownSub(d, true, x);
      assert d.subLts[d.subStl[x]] == d.subLts[d.subStl[y]];
    }
  }

  /** What `max_classification` prints for two lists of parts. */
  ghost predicate PrintsMax(d: Definition, a: Lists4, b: Lists4, long: bool, hash: Hash, r: Result<string>) {
    match (MaxGroups(Elems(a.groups), Elems(b.groups)), MaxGroups(Elems(a.subgroups), Elems(b.subgroups)))
    case (Valid(g), Valid(s)) =>
      r == Print(d, Max(a.lvl, b.lvl), hash(Elems(a.req) + Elems(b.req)), hash(g), hash(s), long, false, hash)
    case _ => r == Invalid
  }

  method CombineMax(d: Definition, a: Lists4, b: Lists4, long: bool, hash: Hash) returns (r: Result<string>)
    requires forall x :: x in d.groupAliasOrder ==> x in d.groupAliases
    ensures PrintsMax(d, a, b, long, hash, r)
  {
    var groups := MaxGroups(Elems(a.groups), Elems(b.groups));
    var subgroups := MaxGroups(Elems(a.subgroups), Elems(b.subgroups));
    if groups.Invalid? || subgroups.Invalid? {
      return Invalid;
    }
    var l := Lists4(Max(a.lvl, b.lvl), hash(Elems(a.req) + Elems(b.req)), hash(groups.value), hash(subgroups.value));
    r := GetText(d, l, long, false, hash);
  }

  /** The maximum of the names shown is the names of the maximum. */
  lemma MaxNames(d: Definition, long: bool, p: Parts, a: Lists4, q: Parts, b: Lists4)
    requires WellFormed(d) && Both(d, long, p, a, q, b)
    ensures var (g, s) :=
            (MaxGroups(Elems(a.groups), Elems(b.groups)), MaxGroups(Elems(a.subgroups), Elems(b.subgroups)));
            match MaxOf(p, q)
            case Invalid => g.Invalid? || s.Invalid?
            case Valid(m) => g == Valid(ShownGroups(d, long, m.groups)) && s == Valid(ShownSubs(d, long, m.subgroups))
    ensures Elems(a.req) + Elems(b.req) == ShownReqs(d, long, p.req + q.req)
  {
    CombineShown(d, long, p, q);
    ShownReqMeet(d, long, p.req, q.req);
  }

  /** The lists of parts in the order of `hash`. */
  function ListsIn(d: Definition, long: bool, p: Parts, hash: Hash): Lists4 {
    Lists4(p.lvl, hash(ShownReqs(d, long, p.req)), hash(ShownGroups(d, long, p.groups)),
      hash(ShownSubs(d, long, p.subgroups)))
  }

  lemma ListsInList(d: Definition, long: bool, p: Parts, hash: Hash)
    requires Lists(hash)
    ensures ListsOf(d, long, p, ListsIn(d, long, p, hash))
  {
  }

  lemma PrintsTheMax(d: Definition, p: Parts, q: Parts, a: Lists4, b: Lists4, r: Result<string>, long: bool, hash: Hash)
    requires WellFormed(d) && Both(d, long, p, a, q, b) && PrintsMax(d, a, b, long, hash, r)
    ensures match MaxOf(p, q)
            case Invalid => r == Invalid
            case Valid(m) => var l := ListsIn(d, long, m, hash);
              r == Print(d, l.lvl, l.req, l.groups, l.subgroups, long, false, hash)
  {
    MaxNames(d, long, p, a, q, b);
  }

  lemma MaxShown(d: Definition, p: Parts, q: Parts, a: Lists4, b: Lists4, r: Result<string>, long: bool, hash: Hash)
    requires WellFormed(d) && NoAutoSelect(d) && Lists(hash)
    requires Both(d, long, p, a, q, b) && PrintsMax(d, a, b, long, hash, r)
    ensures var m := MaxOf(p, q);
            (r.Invalid? <==> m.Invalid?) && (m.Valid? ==> PrintOf(d, long, m.value, r.value))
  {
    PrintsTheMax(d, p, q, a, b, r, long, hash);
    if MaxOf(p, q).Valid? {
      ListsInList(d, long, MaxOf(p, q).value, hash);
      MaxListPrinted(d, p, q, ListsIn(d, long, MaxOf(p, q).value, hash), long, hash);
    }
  }

  lemma MaxListPrinted(d: Definition, p: Parts, q: Parts, l: Lists4, long: bool, hash: Hash)
    requires WellFormed(d) && NoAutoSelect(d) && Lists(hash)
    requires Normal(d, p) && Normal(d, q) && MaxOf(p, q).Valid? && ListsOf(d, long, MaxOf(p, q).value, l)
    ensures var r := Print(d, l.lvl, l.req, l.groups, l.subgroups, long, false, hash);
            r.Valid? && PrintOf(d, long, MaxOf(p, q).value, r.value)
  {
    CombinedAreNamed(d, p, q);
    CanPrint(d, long, MaxOf(p, q).value, l, false, hash);
  }

  /** Comparing long names decides access. */
  lemma AccessibleByName(d: Definition, u: Parts, p: Parts)
    requires WellFormed(d) && Closed(d, u) && Closed(d, p)
    ensures Accessible(u, p) <==>
      && u.lvl >= p.lvl
      && ShownReqs(d, true, p.req) <= ShownReqs(d, true, u.req)
      && CanSeeGroups(ShownGroups(d, true, u.groups), ShownGroups(d, true, p.groups))
      && CanSeeGroups(ShownSubs(d, true, u.subgroups), ShownSubs(d, true, p.subgroups))
  {
    ShownReqMeet(d, true, p.req, u.req);
    MeetShown(d, true, u, p);
    MeetIsSeeing(u.groups, p.groups);
    MeetIsSeeing(u.subgroups, p.subgroups);
    MeetIsSeeing(ShownGroups(d, true, u.groups), ShownGroups(d, true, p.groups));
    MeetIsSeeing(ShownSubs(d, true, u.subgroups), ShownSubs(d, true, p.subgroups));
    ShownGroupsEmpty(d, true, p.groups);
    ShownGroupsEmpty(d, true, p.subgroups);
    ShownGroupsEmpty(d, true, u.groups * p.groups);
    ShownGroupsEmpty(d, true, u.subgroups * p.subgroups);
  }

  lemma MeetIsSeeing(a: set<string>, b: set<string>)
    ensures CanSeeGroups(a, b) <==> b == {} || a * b != {}
  {
    if a * b != {} {
      var g :| g in a * b;
    }
    if g :| g in a && g in b {
      assert g in a * b;
    }
  }
}
