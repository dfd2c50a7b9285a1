/** A definition with every kind of item and rule, to show that the assumptions on definitions can be met. */
module Sample {
  import opened Wrappers
  import opened Strings
  import opened Marking
  import opened Normalization

  /** The names a small definition needs: short and long ones of two levels, of a required item, of a group with a
      solitary name, of a subgroup, and of one more item. */
  datatype Names = Names(low: string, lowLong: string, high: string, highLong: string, req: string, reqLong: string,
                         group: string, groupLong: string, alone: string, sub: string, subLong: string,
                         other: string, otherLong: string)

  /** The item requires the high level; the subgroup brings in the group and is limited to it. */
  function Small(n: Names): Definition {
    var required := Params(2, false, None, None, None);
    var alone := Params(0, false, None, None, Some(n.alone));
    var bound := Params(0, false, Some(n.group), Some(n.group), None);
    Definition(
      map[n.low := 1, n.high := 2], map[1 := n.low, 2 := n.high],
      map[n.low := n.lowLong, n.high := n.highLong], map[n.lowLong := n.low, n.highLong := n.high], map[],
      map[n.req := n.reqLong], map[n.reqLong := n.req], map[],
      map[n.group := n.groupLong], map[n.groupLong := n.group], map[n.alone := [n.group]], [n.alone], [],
      map[n.sub := n.subLong], map[n.subLong := n.sub], map[], [],
      map[n.req := required, n.reqLong := required, n.group := alone, n.groupLong := alone,
        n.sub := bound, n.subLong := bound],
      false)
  }

  predicate LevelNames(n: Names) {
    && n.low != n.high && n.low != n.lowLong && n.low != n.highLong && n.high != n.lowLong && n.high != n.highLong
    && n.lowLong != n.highLong
  }

  ghost predicate ItemNames(n: Names) {
    && Name(n.req) && Name(n.reqLong) && Name(n.group) && Name(n.groupLong) && Name(n.alone) && Name(n.sub)
    && Name(n.subLong)
    && n.req !in {n.reqLong, n.group, n.groupLong, n.alone, n.sub, n.subLong}
    && n.reqLong !in {n.group, n.groupLong, n.alone, n.sub, n.subLong}
    && n.group !in {n.groupLong, n.alone, n.sub, n.subLong}
    && n.groupLong !in {n.alone, n.sub, n.subLong}
    && n.alone !in {n.sub, n.subLong}
    && n.sub != n.subLong
  }

  /** The text of a level name. */
  predicate Letters(s: string) {
    s != "" && forall i :: 0 <= i < |s| ==> 'A' <= s[i] <= 'Z'
  }

  lemma LettersAreName(s: string)
    requires Letters(s)
    ensures Name(s)
  {
    forall i ensures !OccursAt(s, "REL ", i) {
      if 0 <= i <= |s| - 4 {
        assert s[i..i + 4][3] == s[i + 3] && "REL "[3] == ' ';
      }
    }
  }

  lemma LettersAreNoNumber(n: Names, s: string)
    requires Letters(s)
    ensures !IsLevelNumber(Small(n), s)
  {
    assert Decimal(1)[0] == '1' && Decimal(2)[0] == '2';
  }

  lemma OnePair(short: string, long: string, params: map<string, Params>)
    requires Name(short) && Name(long) && short != long
    requires short in params && long in params && params[short] == params[long]
    ensures Bilingual(map[short := long], map[long := short], params)
  {
  }

  lemma TwoLevels(d: Definition, n: Names)
    requires d.levelOf == map[n.low := 1, n.high := 2] && d.levelText == map[1 := n.low, 2 := n.high]
    requires d.levelStl == map[n.low := n.lowLong, n.high := n.highLong]
    requires d.levelLts == map[n.lowLong := n.low, n.highLong := n.high] && d.levelAliases == map[]
    requires LevelNames(n) && Letters(n.low) && Letters(n.lowLong) && Letters(n.high) && Letters(n.highLong)
    requires forall s :: s in {n.low, n.lowLong, n.high, n.highLong} ==> !IsLevelNumber(d, s)
    requires forall x :: x in d.params ==> d.params[x].requireLvl == 0 || d.params[x].requireLvl == 2
    ensures WellFormedLevels(d)
  {
    LowLevel(d, n);
    HighLevel(d, n);
    forall k | k in d.levelText ensures k == 1 || k == 2 {}
  }

  lemma LowLevel(d: Definition, n: Names)
    requires d.levelOf == map[n.low := 1, n.high := 2] && d.levelText == map[1 := n.low, 2 := n.high]
    requires d.levelStl == map[n.low := n.lowLong, n.high := n.highLong]
    requires d.levelLts == map[n.lowLong := n.low, n.highLong := n.high]
    requires LevelNames(n) && Letters(n.low) && Letters(n.lowLong)
    requires !IsLevelNumber(d, n.low) && !IsLevelNumber(d, n.lowLong)
    ensures WellNamedLevel(d, 1)
  {
    assert d.levelStl[n.low] == n.lowLong && d.levelLts[n.lowLong] == n.low;
  }

  lemma HighLevel(d: Definition, n: Names)
    requires d.levelOf == map[n.low := 1, n.high := 2] && d.levelText == map[1 := n.low, 2 := n.high]
    requires d.levelStl == map[n.low := n.lowLong, n.high := n.highLong]
    requires d.levelLts == map[n.lowLong := n.low, n.highLong := n.high]
    requires LevelNames(n) && Letters(n.high) && Letters(n.highLong)
    requires !IsLevelNumber(d, n.high) && !IsLevelNumber(d, n.highLong)
    ensures WellNamedLevel(d, 2)
  {
    assert d.levelStl[n.high] == n.highLong && d.levelLts[n.highLong] == n.high;
  }

  lemma SmallLevels(n: Names)
    requires LevelNames(n) && Letters(n.low) && Letters(n.lowLong) && Letters(n.high) && Letters(n.highLong)
    ensures WellFormedLevels(Small(n))
  {
    LettersAreNoNumber(n, n.low);
    LettersAreNoNumber(n, n.lowLong);
    LettersAreNoNumber(n, n.high);
    LettersAreNoNumber(n, n.highLong);
    TwoLevels(Small(n), n);
  }

  lemma SmallReq(n: Names)
    requires ItemNames(n)
    ensures Bilingual(Small(n).reqStl, Small(n).reqLts, Small(n).params)
  {
    OnePair(n.req, n.reqLong, Small(n).params);
  }

  lemma SmallGroup(n: Names)
    requires ItemNames(n)
    ensures Bilingual(Small(n).groupStl, Small(n).groupLts, Small(n).params)
  {
    OnePair(n.group, n.groupLong, Small(n).params);
  }

  lemma SmallSub(n: Names)
    requires ItemNames(n)
    ensures Bilingual(Small(n).subStl, Small(n).subLts, Small(n).params)
    ensures Small(n).params[n.sub].limitedTo.Some?
  {
    OnePair(n.sub, n.subLong, Small(n).params);
  }

  lemma SmallNames(n: Names)
    requires ItemNames(n)
    ensures var d := Small(n); ReqNames(d) !! SubNames(d) && n.alone !in ReqNames(d) && n.alone !in SubNames(d)
  {
    assert ReqNames(Small(n)) == {n.req, n.reqLong} && SubNames(Small(n)) == {n.sub, n.subLong};
  }

  lemma SmallSolitary(n: Names)
    requires ItemNames(n)
    ensures forall x :: x in Small(n).params && Small(n).params[x].solitary.Some? ==>
              Small(n).params[x].solitary == Some(n.alone)
    ensures forall x :: x in Small(n).params && Small(n).params[x].requireGroup.Some? ==>
              Small(n).params[x].requireGroup == Some(n.group)
  {
  }

  lemma SmallAlias(n: Names)
    requires ItemNames(n)
    ensures WellNamedAliases(Small(n).groupAliases, Small(n).groupStl)
  {
  }

  lemma SmallRules(n: Names)
    requires ItemNames(n)
    ensures var d := Small(n);
            && Bilingual(d.reqStl, d.reqLts, d.params) && Bilingual(d.groupStl, d.groupLts, d.params)
            && Bilingual(d.subStl, d.subLts, d.params) && !NoLimits(d)
  {
    SmallReq(n);
    SmallGroup(n);
    SmallSub(n);
  }

  lemma Assembled(d: Definition, n: Names)
    requires WellFormedLevels(d) && NoAutoSelect(d) && Name(n.alone)
    requires Bilingual(d.reqStl, d.reqLts, d.params) && Bilingual(d.groupStl, d.groupLts, d.params)
    requires Bilingual(d.subStl, d.subLts, d.params)
    requires d.reqAliases == map[] && d.subAliases == map[] && WellNamedAliases(d.groupAliases, d.groupStl)
    requires n.group in d.groupStl && d.groupStl.Keys == {n.group}
    requires d.groupAliases == map[n.alone := [n.group]] && d.groupAliasOrder == [n.alone]
    requires n.alone !in ReqNames(d) && n.alone !in SubNames(d) && ReqNames(d) !! SubNames(d)
    requires forall x :: x in d.params && d.params[x].solitary.Some? ==> d.params[x].solitary == Some(n.alone)
    requires forall x :: x in d.params && d.params[x].requireGroup.Some? ==> d.params[x].requireGroup == Some(n.group)
    ensures WellFormed(d)
  {
    OneAlias(d.groupAliases, n.alone, n.group);
  }

  lemma OneAlias(aliases: map<string, seq<string>>, alone: string, group: string)
    requires aliases == map[alone := [group]]
    ensures aliases[alone] == [group] && forall a :: a in aliases ==> a == alone && |aliases[a]| == 1
  {
  }

  /** A definition over any such names is well-formed, with rules of every kind and no auto-selection. */
  lemma SmallIsWellFormed(n: Names)
    requires LevelNames(n) && Letters(n.low) && Letters(n.lowLong) && Letters(n.high) && Letters(n.highLong)
    requires ItemNames(n)
    ensures WellFormed(Small(n)) && NoAutoSelect(Small(n)) && !NoLimits(Small(n))
  {
    SmallLevels(n);
    SmallRules(n);
    SmallNames(n);
    SmallSolitary(n);
    SmallAlias(n);
    Assembled(Small(n), n);
  }

  /** One such definition. */
  lemma SmallExists() returns (n: Names)
    ensures WellFormed(Small(n)) && NoAutoSelect(Small(n)) && !NoLimits(Small(n))
  {
    n := Names("L", "LL", "H", "HH", "Q", "QQ", "G", "GG", "A", "S", "SS", "O", "OO");
    LettersAreName(n.req);
    LettersAreName(n.reqLong);
    LettersAreName(n.group);
    LettersAreName(n.groupLong);
    LettersAreName(n.alone);
    LettersAreName(n.sub);
    LettersAreName(n.subLong);
    SmallIsWellFormed(n);
  }
}
