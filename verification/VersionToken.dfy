/** The version token: index, sequence number and primary term joined by three dashes, and its decoding. */
module VersionToken {
  import opened Wrappers
  import opened Strings

  const CREATE := "create"
  const DASHES := "---"

  // ---------------------------------------------------------------- split at three dashes

  /** `s.split("---")`. */
  function SplitDashes(s: string): (parts: seq<string>)
    ensures |parts| >= 1
    decreases |s|
  {
    if s == "" then [""]
    else if DASHES <= s then [""] + SplitDashes(s[3..])
    else var rest := SplitDashes(s[1..]); [[s[0]] + rest[0]] + rest[1..]
  }

  lemma {:induction false} SplitNoDash(s: string)
    requires '-' !in s
    ensures SplitDashes(s) == [s]
  {
    if s != "" {
      assert s[0] in s && DASHES[0] == '-';
      SplitNoDash(s[1..]);
      assert [s[0]] + s[1..] == s;
    }
  }

  /** An index name a token can carry. */
  ghost predicate Clean(index: string) {
    !Contains(index, DASHES) && !(index != "" && index[|index| - 1] == '-')
  }

  lemma CleanTail(a: string)
    requires a != "" && Clean(a)
    ensures Clean(a[1..])
  {
    forall i ensures !OccursAt(a[1..], DASHES, i) {
      OccursInTail(a, i);
    }
  }

  lemma OccursInTail(a: string, i: int)
    requires a != ""
    ensures OccursAt(a[1..], DASHES, i) ==> OccursAt(a, DASHES, i + 1)
  {
    if OccursAt(a[1..], DASHES, i) {
      assert a[i + 1..i + 1 + 3] == a[1..][i..i + 3];
    }
  }

  lemma CleanStart(a: string, b: string)
    requires a != "" && Clean(a)
    ensures !(DASHES <= a + DASHES + b)
  {
    var s := a + DASHES + b;
    assert !OccursAt(a, DASHES, 0);
    assert |a| < 3 ==> s[|a|] == '-' && s[|a| - 1] == a[|a| - 1];
    if |a| >= 3 { assert s[..3] == a[..3]; }
  }

  lemma {:induction false} SplitClean(a: string, b: string)
    requires Clean(a)
    ensures SplitDashes(a + DASHES + b) == [a] + SplitDashes(b)
  {
    var s := a + DASHES + b;
    if a == "" {
      assert s[3..] == b;
    } else {
      CleanStart(a, b);
      CleanTail(a);
      SplitClean(a[1..], b);
      assert s[1..] == a[1..] + DASHES + b;
      assert [a[0]] + a[1..] == a;
    }
  }

  lemma OccursLater(s: string, i: int)
    requires OccursAt(s, DASHES, i) && !(DASHES <= s)
    ensures i > 0 && OccursAt(s[1..], DASHES, i - 1)
  {
    assert s[..3] == s[0..3];
    assert s[1..][i - 1..i - 1 + 3] == s[i..i + 3];
  }

  /** The first piece ends at or before any occurrence of the separator, and the rest is split behind it. */
  lemma {:induction false} FirstPiece(s: string, i: int)
    requires OccursAt(s, DASHES, i)
    ensures var k := |SplitDashes(s)[0]|; k <= i && SplitDashes(s)[1..] == SplitDashes(s[k + 3..])
  {
    if !(DASHES <= s) {
      OccursLater(s, i);
      FirstPiece(s[1..], i - 1);
      var k := |SplitDashes(s[1..])[0]|;
      assert s[1..][k + 3..] == s[k + 1 + 3..];
    }
  }

  lemma TwoPieces(s: string, i: int)
    requires OccursAt(s, DASHES, i)
    ensures |SplitDashes(s)| >= 2
  {
    FirstPiece(s, i);
  }

  /** A name that is not clean is cut short. */
  lemma UncleanCut(a: string, numbers: string) returns (k: nat)
    requires !Clean(a)
    ensures var s := a + DASHES + numbers;
            k < |a| && |SplitDashes(s)[0]| == k && k + 3 <= |s| && SplitDashes(s)[1..] == SplitDashes(s[k + 3..])
  {
    var i := UncleanOccurrence(a, numbers);
    FirstPiece(a + DASHES + numbers, i);
    k := |SplitDashes(a + DASHES + numbers)[0]|;
  }

  /** The numbers still make two more pieces. */
  lemma UncleanSplit(a: string, numbers: string, last: int)
    requires !Clean(a) && OccursAt(numbers, DASHES, last)
    ensures var parts := SplitDashes(a + DASHES + numbers); parts[0] != a && |parts| >= 3
  {
    var k := UncleanCut(a, numbers);
    var s := a + DASHES + numbers;
    TailOccurs(s, a + DASHES, numbers, last, k + 3);
    TwoPieces(s[k + 3..], |a + DASHES| + last - (k + 3));
  }

  lemma TailOccurs(s: string, front: string, back: string, i: int, k: int)
    requires s == front + back && OccursAt(back, DASHES, i) && 0 <= k <= |front|
    ensures OccursAt(s[k..], DASHES, |front| + i - k)
  {
    var at := |front| + i - k;
    assert s[k..][at..at + 3] == back[i..i + 3];
  }

  lemma UncleanOccurrence(a: string, b: string) returns (i: int)
    requires !Clean(a)
    ensures i < |a| && OccursAt(a + DASHES + b, DASHES, i)
  {
    var s := a + DASHES + b;
    if Contains(a, DASHES) {
      i :| OccursAt(a, DASHES, i);
      assert s[i..i + 3] == a[i..i + 3];
    } else {
      i := |a| - 1;
      assert s[i] == '-' && s[i + 1] == '-' && s[i + 2] == '-';
      assert s[i..i + 3] == DASHES;
    }
  }

  // ---------------------------------------------------------------- the token

  function Token(index: string, seqNo: nat, term: nat): string {
    index + DASHES + (Decimal(seqNo) + DASHES + Decimal(term))
  }

  /** The token of a collection that is not managed: no index. */
  function ShortToken(seqNo: nat, term: nat): string {
    Decimal(seqNo) + DASHES + Decimal(term)
  }

  datatype Target = Target(index: string, seqNo: string, term: string)

  /** `_get_version_write_target`; `None` stands for the exception. */
  function WriteTarget(name: string, version: string): Option<Target> {
    var parts := SplitDashes(version);
    if |parts| == 3 then Some(Target(parts[0], parts[1], parts[2]))
    else if |parts| == 2 then Some(Target(name, parts[0], parts[1]))
    else None
  }

  /** Neither a version token, nor the token to create, nor none. */
  predicate Malformed(version: string) {
    version != CREATE && version != "" && |SplitDashes(version)| != 2 && |SplitDashes(version)| != 3
  }

  lemma {:induction false} FirstPieceStarts(s: string)
    ensures SplitDashes(s)[0] <= s
  {
    if s != "" && !(DASHES <= s) {
      FirstPieceStarts(s[1..]);
      assert s == [s[0]] + s[1..];
    }
  }

  /** A piece in front of a separator is clean. */
  lemma {:induction false} FirstPieceClean(s: string)
    requires |SplitDashes(s)| >= 2
    ensures Clean(SplitDashes(s)[0])
  {
    if !(DASHES <= s) {
      FirstPieceClean(s[1..]);
      FirstPieceStarts(s);
      var rest, piece := SplitDashes(s[1..])[0], SplitDashes(s)[0];
      assert piece[1..] == rest;
      if rest == "" {
        assert DASHES <= s[1..];
        assert s[0] != '-';
      }
      forall i ensures !OccursAt(piece, DASHES, i) {
        NotFirst(s, piece, rest, i);
        assert !OccursAt(rest, DASHES, i - 1);
      }
    }
  }

  lemma NotFirst(s: string, piece: string, rest: string, i: int)
    requires piece != "" && piece <= s && piece[1..] == rest && !(DASHES <= s)
    ensures OccursAt(piece, DASHES, i) ==> OccursAt(rest, DASHES, i - 1)
  {
    if OccursAt(piece, DASHES, i) {
      assert !(DASHES <= piece) by { assert |piece| >= 3 ==> piece[..3] == s[..3]; }
      OccursLater(piece, i);
    }
  }

  lemma TargetIsClean(name: string, version: string)
    requires WriteTarget(name, version).Some?
    ensures var index := WriteTarget(name, version).value.index; index == name || Clean(index)
  {
    FirstPieceClean(version);
  }

  lemma SplitNumbers(seqNo: nat, term: nat)
    ensures SplitDashes(ShortToken(seqNo, term)) == [Decimal(seqNo), Decimal(term)]
  {
    DecimalFacts(seqNo);
    DecimalFacts(term);
    NoDashIsClean(Decimal(seqNo));
    SplitClean(Decimal(seqNo), Decimal(term));
    SplitNoDash(Decimal(term));
  }

  lemma NoDashIsClean(d: string)
    requires '-' !in d
    ensures Clean(d)
  {
    ContainsHasDash(d);
  }

  lemma ContainsHasDash(d: string)
    ensures Contains(d, DASHES) ==> '-' in d
  {
    if Contains(d, DASHES) {
      var i :| OccursAt(d, DASHES, i);
      assert d[i..i + 3][0] == d[i];
    }
  }

  /** A token gives back its index, sequence number and term if and only if the index holds no three dashes and does
      not end in a dash. */
  lemma TokenDecodes(name: string, index: string, seqNo: nat, term: nat)
    ensures WriteTarget(name, Token(index, seqNo, term)) == Some(Target(index, Decimal(seqNo), Decimal(term))) <==>
      Clean(index)
  {
    SplitNumbers(seqNo, term);
    if Clean(index) {
      SplitClean(index, ShortToken(seqNo, term));
    } else {
      var numbers, at := ShortToken(seqNo, term), |Decimal(seqNo)|;
      assert numbers[at..at + 3] == DASHES;
      UncleanSplit(index, numbers, at);
    }
  }

  lemma ShortTokenDecodes(name: string, seqNo: nat, term: nat)
    ensures WriteTarget(name, ShortToken(seqNo, term)) == Some(Target(name, Decimal(seqNo), Decimal(term)))
  {
    SplitNumbers(seqNo, term);
  }

  /** No token is mistaken for the request to create. */
  lemma TokenIsNoCreate(index: string, seqNo: nat, term: nat)
    ensures Token(index, seqNo, term) != CREATE && ShortToken(seqNo, term) != CREATE
  {
    assert Token(index, seqNo, term)[|index|] == '-';
    assert ShortToken(seqNo, term)[|Decimal(seqNo)|] == '-';
    assert '-' !in CREATE;
  }

  /** A test of an index name that can be computed. */
  predicate IsClean(index: string) {
    SplitDashes(index) == [index] && (index == "" || index[|index| - 1] != '-')
  }

  lemma IsCleanMeans(index: string)
    ensures IsClean(index) ==> Clean(index)
  {
    if Contains(index, DASHES) {
      var i :| OccursAt(index, DASHES, i);
      FirstPiece(index, i);
    }
  }
}
