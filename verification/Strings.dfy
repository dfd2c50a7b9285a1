/** The string operations the classification engine and the token codec rely on:
    Python's split, join, replace-with-nothing, strip, partition and upper. */
module Strings {

  // ---------------------------------------------------------------- split / join

  /** `s.split(sep)` for a one-character separator. */
  function Split(s: string, sep: char): (parts: seq<string>)
    ensures |parts| >= 1
  {
    if s == "" then [""]
    else
      var rest := Split(s[1..], sep);
      if s[0] == sep then [""] + rest
      else [[s[0]] + rest[0]] + rest[1..]
  }

  /** `sep.join(parts)`. */
  function Join(sep: string, parts: seq<string>): string {
    if parts == [] then ""
    else if |parts| == 1 then parts[0]
    else parts[0] + sep + Join(sep, parts[1..])
  }

  lemma {:induction false} SplitConcat(a: string, b: string, sep: char)
    ensures Split(a + [sep] + b, sep) == Split(a, sep) + Split(b, sep)
  {
    var s := a + [sep] + b;
    if a == "" {
      assert s[1..] == b;
    } else {
      assert s[1..] == a[1..] + [sep] + b;
      SplitConcat(a[1..], b, sep);
    }
  }

  lemma {:induction false} SplitNone(s: string, sep: char)
    requires sep !in s
    ensures Split(s, sep) == [s]
  {
    if s != "" {
      SplitNone(s[1..], sep);
      assert [s[0]] + s[1..] == s;
    }
  }

  /** A piece never holds the separator, and its characters come from the split text. */
  lemma {:induction false} SplitPiece(s: string, sep: char, p: string)
    requires p in Split(s, sep)
    ensures sep !in p
    ensures forall c :: c in p ==> c in s
  {
    if s != "" {
      var rest := Split(s[1..], sep);
      var head := rest[0];
      SplitPiece(s[1..], sep, head);
      if s[0] == sep {
        if p != "" {
          assert p in rest;
          SplitPiece(s[1..], sep, p);
        }
      } else if p != [s[0]] + head {
        assert p in rest[1..];
        assert p in rest;
        SplitPiece(s[1..], sep, p);
      }
    }
  }

  /** The non-empty pieces of a '/'-separated text. */
  function Pieces(s: string): set<string> {
    set p | p in Split(s, '/') && p != ""
  }

  lemma PiecesConcat(a: string, b: string)
    ensures Pieces(a + "/" + b) == Pieces(a) + Pieces(b)
    ensures Pieces(a + "//" + b) == Pieces(a) + Pieces(b)
  {
    SplitConcat(a, b, '/');
    SplitConcat("", b, '/');
    assert Split("", '/') == [""];
    assert "" + ['/'] + b == "/" + b;
    SplitConcat(a, "/" + b, '/');
    assert a + ['/'] + ("/" + b) == a + "//" + b;
    assert a + ['/'] + b == a + "/" + b;
  }

  lemma PiecesSingle(p: string)
    requires '/' !in p && p != ""
    ensures Pieces(p) == {p}
  {
    SplitNone(p, '/');
  }

  lemma PiecesEmpty()
    ensures Pieces("") == {}
  {
  }

  lemma {:induction false} PiecesJoin(names: seq<string>)
    requires forall n :: n in names ==> '/' !in n && n != ""
    ensures Pieces(Join("/", names)) == set n | n in names
  {
    if names == [] {
      PiecesEmpty();
    } else if |names| == 1 {
      PiecesSingle(names[0]);
    } else {
      PiecesConcat(names[0], Join("/", names[1..]));
      PiecesSingle(names[0]);
      PiecesJoin(names[1..]);
      assert names == [names[0]] + names[1..];
    }
  }

  // ---------------------------------------------------------------- partition

  /** `s.partition("//")` without the separator itself. */
  function Partition(s: string): (string, string) {
    if |s| < 2 then (s, "")
    else if s[0] == '/' && s[1] == '/' then ("", s[2..])
    else var (before, after) := Partition(s[1..]); ([s[0]] + before, after)
  }

  lemma {:induction false} PartitionAt(a: string, b: string)
    requires '/' !in a
    ensures Partition(a + "//" + b) == (a, b)
  {
    var s := a + "//" + b;
    if a == "" {
      assert s[2..] == b;
    } else {
      assert s[1..] == a[1..] + "//" + b;
      PartitionAt(a[1..], b);
      assert s[0] == a[0] && [a[0]] + a[1..] == a;
    }
  }

  lemma {:induction false} PartitionNone(a: string)
    requires '/' !in a
    ensures Partition(a) == (a, "")
  {
    if |a| >= 2 {
      PartitionNone(a[1..]);
      assert [a[0]] + a[1..] == a;
    }
  }

  lemma {:induction false} PartitionChars(s: string)
    ensures forall c :: c in Partition(s).1 ==> c in s
  {
    if |s| >= 2 && !(s[0] == '/' && s[1] == '/') {
      PartitionChars(s[1..]);
    }
  }

  // ---------------------------------------------------------------- replace with nothing

  predicate StartsWith(s: string, pat: string) {
    pat <= s
  }

  /** `s.replace(pat, "")`: every occurrence removed, left to right, without overlap. */
  function Delete(s: string, pat: string): string
    requires pat != ""
    decreases |s|
  {
    if s == "" then ""
    else if pat <= s then Delete(s[|pat|..], pat)
    else [s[0]] + Delete(s[1..], pat)
  }

  predicate OccursAt(s: string, pat: string, i: int) {
    0 <= i <= |s| - |pat| && s[i..i + |pat|] == pat
  }

  ghost predicate Contains(s: string, pat: string) {
    exists i :: OccursAt(s, pat, i)
  }

  lemma {:induction false} DeleteAbsent(s: string, pat: string)
    requires pat != "" && !Contains(s, pat)
    ensures Delete(s, pat) == s
  {
    if s != "" {
      assert !OccursAt(s, pat, 0);
      if pat <= s {
        assert false;
      } else {
        forall i ensures !OccursAt(s[1..], pat, i) {
          if 0 <= i <= |s[1..]| - |pat| {
            assert s[1..][i..i + |pat|] == s[i + 1..i + 1 + |pat|];
            assert !OccursAt(s, pat, i + 1);
          }
        }
        DeleteAbsent(s[1..], pat);
        assert [s[0]] + s[1..] == s;
      }
    }
  }

  lemma DeletePrefix(s: string, pat: string)
    requires pat != ""
    ensures Delete(pat + s, pat) == Delete(s, pat)
  {
    assert (pat + s)[|pat|..] == s;
    assert pat <= pat + s;
  }

  /** The last character stays when no removed text ends in it... */
  lemma {:induction false} DeleteKeepsLast(s: string, pat: string)
    requires pat != "" && s != "" && s[|s| - 1] != pat[|pat| - 1]
    ensures Delete(s, pat) != "" && Delete(s, pat)[|Delete(s, pat)| - 1] == s[|s| - 1]
    decreases |s|
  {
    if pat <= s {
      DeleteKeepsLast(s[|pat|..], pat);
    } else if |s| > 1 {
      DeleteKeepsLast(s[1..], pat);
    }
  }

  /** ... and any character that is in none. */
  lemma {:induction false} DeleteKeeps(s: string, pat: string, c: char)
    requires pat != "" && c in s && c !in pat
    ensures c in Delete(s, pat)
    decreases |s|
  {
    if pat <= s {
      assert s == pat + s[|pat|..];
      DeleteKeeps(s[|pat|..], pat, c);
    } else if s[0] != c {
      assert s == [s[0]] + s[1..];
      DeleteKeeps(s[1..], pat, c);
    }
  }

  /** Removal never grows the text, and shrinks it when the pattern occurs. */
  lemma {:induction false} DeleteShrinks(s: string, pat: string)
    requires pat != ""
    ensures |Delete(s, pat)| <= |s|
    ensures Contains(s, pat) ==> |Delete(s, pat)| < |s|
    ensures forall c :: c in Delete(s, pat) ==> c in s
    decreases |s|
  {
    if s != "" {
      if pat <= s {
        DeleteShrinks(s[|pat|..], pat);
      } else {
        DeleteShrinks(s[1..], pat);
        if Contains(s, pat) {
          var i :| OccursAt(s, pat, i);
          assert i != 0;
          assert s[1..][i - 1..i - 1 + |pat|] == s[i..i + |pat|];
          assert OccursAt(s[1..], pat, i - 1);
        }
      }
    }
  }

  lemma LongPrefix(a: string, c: char, b: string, pat: string)
    ensures pat <= a + [c] + b && |pat| > |a| ==> c in pat
    ensures pat <= a + [c] + b && |pat| <= |a| ==> pat <= a
    ensures pat <= a ==> pat <= a + [c] + b
  {
    assert (a + [c] + b)[|a|] == c;
    assert pat <= a + [c] + b && |pat| > |a| ==> pat[|a|] == c;
  }

  /** A character foreign to the pattern cuts the removal in two. */
  lemma {:induction false} DeleteAcross(a: string, c: char, b: string, pat: string)
    requires pat != "" && c !in pat
    ensures Delete(a + [c] + b, pat) == Delete(a, pat) + [c] + Delete(b, pat)
    decreases |a|
  {
    var s := a + [c] + b;
    LongPrefix(a, c, b, pat);
    if a == "" {
      assert s[0] == c && s[1..] == b;
    } else if pat <= a {
      assert s[|pat|..] == a[|pat|..] + [c] + b;
      DeleteAcross(a[|pat|..], c, b, pat);
    } else {
      DeleteAcross(a[1..], c, b, pat);
      StepAcross(a, c, b, pat);
    }
  }

  lemma StepAcross(a: string, c: char, b: string, pat: string)
    requires pat != "" && a != "" && !(pat <= a) && !(pat <= a + [c] + b)
    ensures Delete(a + [c] + b, pat) == [a[0]] + Delete(a[1..] + [c] + b, pat)
    ensures Delete(a, pat) == [a[0]] + Delete(a[1..], pat)
  {
    var s := a + [c] + b;
    assert s[1..] == a[1..] + [c] + b;
  }

  // ---------------------------------------------------------------- strip

  /** The white space `str.strip` removes (Latin-1 part). */
  predicate IsSpace(c: char) {
    c == ' ' || '\t' <= c <= '\r' || 28 as char <= c <= 31 as char || c == 133 as char || c == 160 as char
  }

  function StripLeft(s: string): string {
    if s != "" && IsSpace(s[0]) then StripLeft(s[1..]) else s
  }

  function StripRight(s: string): string {
    if s != "" && IsSpace(s[|s| - 1]) then StripRight(s[..|s| - 1]) else s
  }

  function Strip(s: string): string {
    StripRight(StripLeft(s))
  }

  predicate Trimmed(s: string) {
    s == "" || (!IsSpace(s[0]) && !IsSpace(s[|s| - 1]))
  }

  lemma StripTrimmed(s: string)
    requires Trimmed(s)
    ensures Strip(s) == s && Strip(" " + s) == s
  {
    assert (" " + s)[1..] == s;
    assert StripLeft(" " + s) == StripLeft(s);
  }

  lemma StripSpace(s: string)
    ensures Strip(" " + s) == Strip(s)
  {
    assert (" " + s)[1..] == s;
  }

  lemma {:induction false} StripLeftFacts(s: string)
    ensures StripLeft(s) == "" || !IsSpace(StripLeft(s)[0])
    ensures |StripLeft(s)| <= |s|
    ensures forall c :: c in StripLeft(s) ==> c in s
  {
    if s != "" && IsSpace(s[0]) {
      StripLeftFacts(s[1..]);
    }
  }

  lemma {:induction false} StripRightFacts(s: string)
    requires s == "" || !IsSpace(s[0])
    ensures Trimmed(StripRight(s))
    ensures |StripRight(s)| <= |s|
    ensures forall c :: c in StripRight(s) ==> c in s
  {
    if s != "" && IsSpace(s[|s| - 1]) {
      StripRightFacts(s[..|s| - 1]);
    }
  }

  lemma StripFacts(s: string)
    ensures Trimmed(Strip(s))
    ensures |Strip(s)| <= |s|
    ensures forall c :: c in Strip(s) ==> c in s
  {
    StripLeftFacts(s);
    StripRightFacts(StripLeft(s));
  }

  // ---------------------------------------------------------------- upper

  /** Upper-casing of the ASCII letters. */
  function ToUpper(c: char): char {
    if 'a' <= c <= 'z' then (c as int - 32) as char else c
  }

  function Upper(s: string): (r: string)
    ensures |r| == |s|
    ensures forall i :: 0 <= i < |s| ==> r[i] == ToUpper(s[i])
  {
    seq(|s|, i requires 0 <= i < |s| => ToUpper(s[i]))
  }

  predicate IsUpper(s: string) {
    forall i :: 0 <= i < |s| ==> ToUpper(s[i]) == s[i]
  }

  lemma UpperFixed(s: string)
    ensures IsUpper(Upper(s))
    ensures IsUpper(s) ==> Upper(s) == s
  {
  }

  lemma UpperConcat(a: string, b: string)
    ensures IsUpper(a + b) <==> IsUpper(a) && IsUpper(b)
  {
    if IsUpper(a + b) {
      forall i | 0 <= i < |a| ensures ToUpper(a[i]) == a[i] { assert (a + b)[i] == a[i]; }
      forall i | 0 <= i < |b| ensures ToUpper(b[i]) == b[i] { assert (a + b)[|a| + i] == b[i]; }
    }
  }

  /** A text built from the characters of an upper-case text is upper-case. */
  lemma UpperChars(s: string, t: string)
    requires IsUpper(s) && forall c :: c in t ==> c in s
    ensures IsUpper(t)
  {
    forall i | 0 <= i < |t| ensures ToUpper(t[i]) == t[i] {
      assert t[i] in t;
    }
  }

  // ---------------------------------------------------------------- order and sorting

  /** Python's order on strings: lexicographic by code point. */
  predicate Le(a: string, b: string) {
    a == "" || (b != "" && (a[0] < b[0] || (a[0] == b[0] && Le(a[1..], b[1..]))))
  }

  predicate Lt(a: string, b: string) {
    Le(a, b) && a != b
  }

  lemma {:induction false} LeTotal(a: string, b: string)
    ensures Le(a, b) || Le(b, a)
    ensures Le(a, b) && Le(b, a) ==> a == b
    ensures Le(a, a)
  {
    if a != "" && b != "" {
      LeTotal(a[1..], b[1..]);
      LeTotal(a[1..], a[1..]);
      assert a == [a[0]] + a[1..] && b == [b[0]] + b[1..];
    } else if a != "" {
      LeTotal(a[1..], a[1..]);
    }
  }

  lemma {:induction false} LeTransitive(a: string, b: string, c: string)
    requires Le(a, b) && Le(b, c)
    ensures Le(a, c)
  {
    if a != "" && a[0] == b[0] && b[0] == c[0] {
      LeTransitive(a[1..], b[1..], c[1..]);
    }
  }

  lemma LtTransitive(a: string, b: string, c: string)
    requires (Le(a, b) && Lt(b, c)) || (Lt(a, b) && Le(b, c))
    ensures Lt(a, c)
  {
    LeTransitive(a, b, c);
    LeTotal(a, b);
    LeTotal(b, c);
  }

  function InsertSorted(x: string, s: seq<string>): seq<string> {
    if s == [] then [x]
    else if Le(x, s[0]) then [x] + s
    else [s[0]] + InsertSorted(x, s[1..])
  }

  /** `sorted(s)`. */
  function Sort(s: seq<string>): seq<string> {
    if s == [] then [] else InsertSorted(s[0], Sort(s[1..]))
  }

  lemma {:induction false} InsertSortedMembers(x: string, s: seq<string>)
    ensures multiset(InsertSorted(x, s)) == multiset(s) + multiset{x}
  {
    if s != [] {
      assert s == [s[0]] + s[1..];
      if !Le(x, s[0]) {
        InsertSortedMembers(x, s[1..]);
      }
    }
  }

  lemma {:induction false} SortMembers(s: seq<string>)
    ensures multiset(Sort(s)) == multiset(s)
    ensures |Sort(s)| == |s|
    ensures (set x | x in Sort(s)) == (set x | x in s)
  {
    if s != [] {
      assert s == [s[0]] + s[1..];
      SortMembers(s[1..]);
      InsertSortedMembers(s[0], Sort(s[1..]));
    }
    assert |multiset(Sort(s))| == |multiset(s)|;
    forall x ensures x in Sort(s) <==> x in s {
      assert x in Sort(s) <==> x in multiset(Sort(s));
      assert x in s <==> x in multiset(s);
    }
  }

  ghost predicate InOrder(s: seq<string>) {
    forall i, j :: 0 <= i < j < |s| ==> Le(s[i], s[j])
  }

  lemma {:induction false} InsertSortedSorts(x: string, s: seq<string>)
    requires InOrder(s)
    ensures InOrder(InsertSorted(x, s))
  {
    if s != [] {
      LeTotal(x, s[0]);
      if Le(x, s[0]) {
        forall j | 0 <= j < |s| ensures Le(x, s[j]) {
          LeTotal(s[0], s[0]);
          LeTransitive(x, s[0], s[j]);
        }
      } else {
        InsertSortedSorts(x, s[1..]);
        InsertSortedMembers(x, s[1..]);
        forall y | y in InsertSorted(x, s[1..]) ensures Le(s[0], y) {
          assert y in multiset(InsertSorted(x, s[1..]));
          assert y == x || y in s[1..];
        }
      }
    }
  }

  lemma {:induction false} SortSorts(s: seq<string>)
    ensures InOrder(Sort(s))
  {
    if s != [] {
      SortSorts(s[1..]);
      InsertSortedSorts(s[0], Sort(s[1..]));
    }
  }

  lemma FirstIsLeast(s: seq<string>, x: string)
    requires InOrder(s) && x in s
    ensures Le(s[0], x)
  {
    LeTotal(x, x);
  }

  lemma RestOf(s: seq<string>)
    requires s != []
    ensures multiset(s) == multiset{s[0]} + multiset(s[1..])
  {
    assert s == [s[0]] + s[1..];
  }

  lemma SameFirst(a: seq<string>, b: seq<string>)
    requires InOrder(a) && InOrder(b) && a != [] && multiset(a) == multiset(b)
    ensures b != [] && a[0] == b[0]
  {
    assert |multiset(a)| == |multiset(b)|;
    assert a[0] in multiset(b) && b[0] in multiset(a);
    FirstIsLeast(a, b[0]);
    FirstIsLeast(b, a[0]);
    LeTotal(a[0], b[0]);
  }

  lemma SameRest(a: seq<string>, b: seq<string>)
    requires a != [] && b != [] && a[0] == b[0] && multiset(a) == multiset(b)
    ensures multiset(a[1..]) == multiset(b[1..])
  {
    RestOf(a);
    RestOf(b);
    assert multiset(a[1..]) == multiset(a) - multiset{a[0]};
  }

  /** There is one order. */
  lemma {:induction false} OneOrder(a: seq<string>, b: seq<string>)
    requires InOrder(a) && InOrder(b) && multiset(a) == multiset(b)
    ensures a == b
  {
    if a == [] {
      assert |multiset(b)| == 0;
    } else {
      SameFirst(a, b);
      SameRest(a, b);
      OneOrder(a[1..], b[1..]);
      assert a == [a[0]] + a[1..];
      assert b == [b[0]] + b[1..];
    }
  }

  // ---------------------------------------------------------------- decimal text

  function Decimal(n: nat): string {
    if n < 10 then [Digit(n)] else Decimal(n / 10) + [Digit(n % 10)]
  }

  function Digit(d: nat): char
    requires d < 10
  {
    '0' + d as char
  }

  function Value(s: string): int {
    if s == "" then 0 else 10 * Value(s[..|s| - 1]) + (s[|s| - 1] as int - '0' as int)
  }

  lemma {:induction false} DecimalFacts(n: nat)
    ensures Value(Decimal(n)) == n
    ensures Decimal(n) != "" && '-' !in Decimal(n)
  {
    if n >= 10 {
      DecimalFacts(n / 10);
      assert Decimal(n)[..|Decimal(n)| - 1] == Decimal(n / 10);
    } else {
      assert Decimal(n)[..0] == "";
    }
  }
}
