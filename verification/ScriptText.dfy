/** Reading the text of a script back: a reader of the part of Painless the compiler writes, made after the language and
    not after the compiler. */
module ScriptText {
  import opened Wrappers
  import opened Strings
  import opened Script

  // ---------------------------------------------------------------- words

  /** A letter, a digit, an underscore or a dot: the characters of field paths and parameter names. */
  predicate WordChar(c: char) {
    'a' <= c <= 'z' || 'A' <= c <= 'Z' || '0' <= c <= '9' || c == '_' || c == '.'
  }

  predicate IsWord(s: string) {
    forall c :: c in s ==> WordChar(c)
  }

  /** The word a text begins with. */
  function Word(s: string): (w: string)
    ensures w <= s && IsWord(w)
  {
    if s == "" || !WordChar(s[0]) then "" else [s[0]] + Word(s[1..])
  }

  /** No word goes on here. */
  predicate Ends(rest: string) {
    rest == "" || !WordChar(rest[0])
  }

  lemma {:induction false} WordThen(w: string, rest: string)
    requires IsWord(w) && Ends(rest)
    ensures Word(w + rest) == w && (w + rest)[|w|..] == rest
  {
    if w != "" {
      assert (w + rest)[1..] == w[1..] + rest;
      assert w[0] in w && forall c :: c in w[1..] ==> c in w;
      WordThen(w[1..], rest);
      assert w == [w[0]] + w[1..];
    } else {
      assert w + rest == rest;
    }
  }

  lemma Skip(a: string, b: string)
    ensures a <= a + b && (a + b)[|a|..] == b
  {
  }

  /** A word cut at its last dot. */
  function Cut(w: string): (r: Option<(string, string)>)
    ensures r.Some? ==> w == r.value.0 + "." + r.value.1
  {
    if w == "" then None
    else if w[|w| - 1] == '.' then Some((w[..|w| - 1], ""))
    else
      match Cut(w[..|w| - 1])
      case None => None
      case Some((before, after)) => Some((before, after + [w[|w| - 1]]))
  }

  lemma {:induction false} CutAtLast(before: string, after: string)
    requires '.' !in after
    ensures Cut(before + "." + after) == Some((before, after))
  {
    var w := before + "." + after;
    if after == "" {
      assert w[..|w| - 1] == before;
    } else {
      var init := after[..|after| - 1];
      assert after == init + [after[|after| - 1]];
      assert w[..|w| - 1] == before + "." + init;
      CutAtLast(before, init);
    }
  }

  predicate IsNumeral(w: string) {
    w != "" && forall c :: c in w ==> '0' <= c <= '9'
  }

  function ReadNatural(s: string): (r: Option<(int, string)>)
    ensures r.Some? ==> |r.value.1| <= |s|
  {
    var w := Word(s);
    if IsNumeral(w) then Some((Strings.Value(w), s[|w|..])) else None
  }

  function ReadInteger(s: string): (r: Option<(int, string)>)
    ensures r.Some? ==> |r.value.1| <= |s|
  {
    if "-" <= s then
      match ReadNatural(s[1..]) case None => None case Some((n, rest)) => Some((-n, rest))
    else ReadNatural(s)
  }

  lemma NumeralFacts(n: nat)
    ensures IsNumeral(Decimal(n)) && IsWord(Decimal(n)) && Strings.Value(Decimal(n)) == n
    ensures '0' <= Decimal(n)[0] <= '9'
  {
    DecimalDigits(n);
    DecimalFacts(n);
    assert Decimal(n)[0] in Decimal(n);
  }

  lemma ReadsNatural(n: nat, rest: string)
    requires Ends(rest)
    ensures ReadNatural(Decimal(n) + rest) == Some((n, rest))
  {
    NumeralFacts(n);
    WordThen(Decimal(n), rest);
  }

  /** An integer is read back, and does not begin with a letter. */
  lemma ReadsInteger(n: int, rest: string)
    requires Ends(rest)
    ensures var s := Integer(n) + rest;
            ReadInteger(s) == Some((n, rest)) && s != "" && (s[0] == '-' || '0' <= s[0] <= '9')
  {
    var m := if n < 0 then -n else n;
    NumeralFacts(m);
    ReadsNatural(m, rest);
    if n < 0 {
      Minus(Decimal(m), rest);
    } else {
      assert (Decimal(m) + rest)[0] == Decimal(m)[0];
    }
  }

  lemma Minus(a: string, rest: string)
    ensures "-" + a + rest == "-" + (a + rest) && "-" <= "-" + (a + rest) && ("-" + (a + rest))[1..] == a + rest
  {
    Skip("-", a + rest);
  }

  // ---------------------------------------------------------------- expressions

  const FIELD := "ctx._source."
  const PARAM := "params."

  /** `params.name`, `ctx._source.path` or a call of `indexOf` or `compareTo`. */
  function ReadExpr(s: string): (r: Option<(Expr, string)>)
    ensures r.Some? ==> |r.value.1| < |s|
    decreases |s|
  {
    var w := Word(s);
    var rest := s[|w|..];
    if PARAM <= w then Some((Param(w[|PARAM|..]), rest))
    else if !(FIELD <= w) then None
    else if "(" <= rest then
      match (Cut(w[|FIELD|..]), ReadExpr(rest[1..]))
      case (Some((path, name)), Some((arg, after))) =>
        if !(")" <= after) then None
        else if name == "indexOf" then Some((IndexOf(path, arg), after[1..]))
        else if name == "compareTo" then Some((CompareTo(path, arg), after[1..]))
        else None
      case _ => None
    else Some((Field(w[|FIELD|..]), rest))
  }

  predicate PlainExpr(e: Expr) {
    match e
    case Param(name) => IsWord(name)
    case Field(path) => IsWord(path)
    case IndexOf(path, arg) => IsWord(path) && PlainExpr(arg)
    case CompareTo(path, arg) => IsWord(path) && PlainExpr(arg)
  }

  /** No expression goes on here. */
  predicate After(rest: string) {
    Ends(rest) && !("(" <= rest)
  }

  lemma ReadsField(path: string, rest: string)
    requires IsWord(path) && Ends(rest)
    ensures var w := Source(path);
            Word(w + rest) == w && (w + rest)[|w|..] == rest && FIELD <= w && !(PARAM <= w) && w[|FIELD|..] == path
  {
    WordThen(Source(path), rest);
    assert Source(path)[0] == 'c';
  }

  /** `s` is a call on a field, whose argument and the rest are `inner`. */
  ghost predicate CallOn(s: string, path: string, name: string, inner: string) {
    var w := Word(s);
    && FIELD <= w && !(PARAM <= w) && Cut(w[|FIELD|..]) == Some((path, name))
    && "(" <= s[|w|..] && s[|w|..][1..] == inner && !("if (" <= s)
  }

  lemma ReadsCall(path: string, name: string, inner: string)
    requires IsWord(path) && IsWord(name) && '.' !in name
    ensures CallOn(Source(path + "." + name) + ("(" + inner), path, name, inner)
  {
    ReadsField(path + "." + name, "(" + inner);
    CutAtLast(path, name);
    assert (Source(path + "." + name) + ("(" + inner))[0] == 'c';
  }

  lemma CallApart(a: string, b: string, c: string, arg: string, rest: string)
    ensures a + b + (c + (arg + (")" + rest))) == a + (b + c) + arg + ")" + rest
  {
  }

  /** The text of a call and what follows it. */
  lemma CallText(path: string, name: string, arg: string, rest: string)
    requires IsWord(path) && IsWord(name) && '.' !in name
    ensures CallOn(Call(path, name, arg) + rest, path, name, arg + (")" + rest))
  {
    ReadsCall(path, name, arg + (")" + rest));
    CallApart(Source(path), "." + name, "(", arg, rest);
    assert Source(path) + ("." + name) == Source(path + "." + name);
  }

  /** One step of the reader at a call. */
  lemma CallRead(s: string, path: string, name: string, inner: string, arg: Expr, rest: string)
    requires CallOn(s, path, name, inner) && ReadExpr(inner) == Some((arg, ")" + rest))
    requires name == "indexOf" || name == "compareTo"
    ensures ReadExpr(s) == Some((if name == "indexOf" then IndexOf(path, arg) else CompareTo(path, arg), rest))
  {
    Skip(")", rest);
  }

  lemma {:induction false} ReadsExpr(e: Expr, rest: string)
    requires PlainExpr(e) && After(rest)
    ensures ReadExpr(RenderExpr(e) + rest) == Some((e, rest))
    decreases e
  {
    match e
    case Param(name) => ReadsParam(name, rest);
    case Field(path) => ReadsField(path, rest);
    case IndexOf(path, arg) =>
      ReadsExpr(arg, ")" + rest);
      CallNames();
      ReadsCallExpr(e, path, "indexOf", arg, rest);
    case CompareTo(path, arg) =>
      ReadsExpr(arg, ")" + rest);
      CallNames();
      ReadsCallExpr(e, path, "compareTo", arg, rest);
  }

  lemma ReadsParam(name: string, rest: string)
    requires IsWord(name) && After(rest)
    ensures ReadExpr(PARAM + name + rest) == Some((Param(name), rest))
  {
    WordThen(PARAM + name, rest);
    Skip(PARAM, name);
  }

  lemma ReadsCallExpr(e: Expr, path: string, name: string, arg: Expr, rest: string)
    requires IsWord(path) && IsWord(name) && '.' !in name
    requires (name == "indexOf" && e == IndexOf(path, arg)) || (name == "compareTo" && e == CompareTo(path, arg))
    requires RenderExpr(e) == Call(path, name, RenderExpr(arg))
    requires ReadExpr(RenderExpr(arg) + (")" + rest)) == Some((arg, ")" + rest))
    ensures ReadExpr(RenderExpr(e) + rest) == Some((e, rest))
  {
    CallText(path, name, RenderExpr(arg), rest);
    CallRead(RenderExpr(e) + rest, path, name, RenderExpr(arg) + (")" + rest), arg, rest);
  }

  lemma CallNames()
    ensures IsWord("indexOf") && '.' !in "indexOf" && IsWord("compareTo") && '.' !in "compareTo"
    ensures "indexOf" != "compareTo"
  {
    assert "indexOf"[0] == 'i';
  }

  // ---------------------------------------------------------------- conditions

  /** What follows an expression in a comparison. */
  function ReadComparison(e: Expr, s: string): (r: Option<(Cond, string)>)
    ensures r.Some? ==> |r.value.1| < |s|
  {
    if " == null" <= s then (if e.Field? then Some((IsNull(e.path), s[8..])) else None)
    else if " == " <= s then
      var n := ReadInteger(s[4..]);
      if n.Some? then Some((Equals(e, n.value.0), n.value.1)) else None
    else if " != " <= s then
      var n := ReadInteger(s[4..]);
      if n.Some? then Some((Differs(e, n.value.0), n.value.1)) else None
    else if " < " <= s then
      var n := ReadInteger(s[3..]);
      if n.Some? then Some((Below(e, n.value.0), n.value.1)) else None
    else if " > " <= s then
      var n := ReadInteger(s[3..]);
      if n.Some? then Some((Above(e, n.value.0), n.value.1)) else None
    else None
  }

  /** Comparisons joined by `||`. */
  function ReadCond(s: string): (r: Option<(Cond, string)>)
    ensures r.Some? ==> |r.value.1| < |s|
    decreases |s|
  {
    match ReadExpr(s)
    case None => None
    case Some((e, rest)) =>
      match ReadComparison(e, rest)
      case None => None
      case Some((first, after)) =>
        if !(" || " <= after) then Some((first, after))
        else
          match ReadCond(after[4..])
          case None => None
          case Some((second, end)) => Some((Either(first, second), end))
  }

  predicate PlainCond(c: Cond) {
    match c
    case IsNull(path) => IsWord(path)
    case Either(a, b) => !a.Either? && PlainCond(a) && PlainCond(b)
    case Equals(e, n) => PlainExpr(e)
    case Differs(e, n) => PlainExpr(e)
    case Below(e, n) => PlainExpr(e)
    case Above(e, n) => PlainExpr(e)
  }

  /** The expression a comparison starts with, and its text behind that. */
  function Compared(c: Cond): Expr
    requires !c.Either?
  {
    if c.IsNull? then Field(c.path) else c.e
  }

  function RenderComparison(c: Cond): string
    requires !c.Either?
  {
    match c
    case IsNull(path) => " == null"
    case Equals(e, n) => " == " + Integer(n)
    case Differs(e, n) => " != " + Integer(n)
    case Below(e, n) => " < " + Integer(n)
    case Above(e, n) => " > " + Integer(n)
  }

  /** One step of the reader at each comparison with a number. */
  lemma EqualsRead(e: Expr, s: string, n: int, rest: string)
    requires ReadInteger(s) == Some((n, rest)) && s != "" && s[0] != 'n'
    ensures ReadComparison(e, " == " + s) == Some((Equals(e, n), rest))
  {
    Skip(" == ", s);
    assert (" == " + s)[4] == s[0];
  }

  lemma DiffersRead(e: Expr, s: string, n: int, rest: string)
    requires ReadInteger(s) == Some((n, rest))
    ensures ReadComparison(e, " != " + s) == Some((Differs(e, n), rest))
  {
    Skip(" != ", s);
    assert (" != " + s)[1] == '!';
  }

  lemma BelowRead(e: Expr, s: string, n: int, rest: string)
    requires ReadInteger(s) == Some((n, rest))
    ensures ReadComparison(e, " < " + s) == Some((Below(e, n), rest))
  {
    Skip(" < ", s);
    assert (" < " + s)[1] == '<';
  }

  lemma AboveRead(e: Expr, s: string, n: int, rest: string)
    requires ReadInteger(s) == Some((n, rest))
    ensures ReadComparison(e, " > " + s) == Some((Above(e, n), rest))
  {
    Skip(" > ", s);
    assert (" > " + s)[1] == '>';
  }

  lemma ReadsComparison(c: Cond, rest: string)
    requires !c.Either? && Ends(rest)
    ensures ReadComparison(Compared(c), RenderComparison(c) + rest) == Some((c, rest))
  {
    if c.IsNull? {
      Skip(" == null", rest);
    } else {
      ReadsInteger(c.n, rest);
      var s := Integer(c.n) + rest;
      match c
      case Equals(e, n) => SignApart(" == ", n, rest); EqualsRead(e, s, n, rest);
      case Differs(e, n) => SignApart(" != ", n, rest); DiffersRead(e, s, n, rest);
      case Below(e, n) => SignApart(" < ", n, rest); BelowRead(e, s, n, rest);
      case Above(e, n) => SignApart(" > ", n, rest); AboveRead(e, s, n, rest);
    }
  }

  lemma SignApart(sign: string, n: int, rest: string)
    ensures sign + Integer(n) + rest == sign + (Integer(n) + rest)
  {
  }

  lemma ComparisonApart(c: Cond)
    requires !c.Either?
    ensures RenderCond(c) == RenderExpr(Compared(c)) + RenderComparison(c)
    ensures RenderComparison(c) != "" && RenderComparison(c)[0] == ' '
  {
    if !c.IsNull? {
      var sign := if c.Equals? then " == " else if c.Differs? then " != " else if c.Below? then " < " else " > ";
      SignApart(RenderExpr(c.e) + sign, c.n, "");
      assert RenderExpr(c.e) + sign + Integer(c.n) == RenderExpr(c.e) + (sign + Integer(c.n));
    }
  }

  lemma ReadsOne(c: Cond, rest: string)
    requires !c.Either? && PlainCond(c) && Ends(rest)
    ensures ReadExpr(RenderCond(c) + rest) == Some((Compared(c), RenderComparison(c) + rest))
    ensures ReadComparison(Compared(c), RenderComparison(c) + rest) == Some((c, rest))
  {
    ComparisonApart(c);
    var behind := RenderComparison(c) + rest;
    assert RenderCond(c) + rest == RenderExpr(Compared(c)) + behind;
    assert behind[0] == ' ';
    ReadsExpr(Compared(c), behind);
    ReadsComparison(c, rest);
  }

  lemma EitherRead(s: string, e: Expr, behind: string, first: Cond, second: Cond, more: string, rest: string)
    requires ReadExpr(s) == Some((e, behind)) && ReadComparison(e, behind) == Some((first, " || " + more))
    requires ReadCond(more) == Some((second, rest))
    ensures ReadCond(s) == Some((Either(first, second), rest))
  {
    Skip(" || ", more);
  }

  lemma {:induction false} ReadsCond(c: Cond, rest: string)
    requires PlainCond(c) && Ends(rest) && !(" || " <= rest)
    ensures ReadCond(RenderCond(c) + rest) == Some((c, rest))
    decreases c
  {
    if c.Either? {
      var more := RenderCond(c.b) + rest;
      ReadsCond(c.b, rest);
      ReadsOne(c.a, " || " + more);
      OrApart(RenderCond(c.a), RenderCond(c.b), rest);
      EitherRead(RenderCond(c.a) + (" || " + more), Compared(c.a), RenderComparison(c.a) + (" || " + more), c.a, c.b,
        more, rest);
    } else {
      ReadsOne(c, rest);
    }
  }

  lemma OrApart(a: string, b: string, rest: string)
    ensures a + " || " + b + rest == a + (" || " + (b + rest))
  {
  }

  // ---------------------------------------------------------------- statements

  /** `add` and `remove` calls. */
  function ReadCall(w: string, s: string): (r: Option<(Stmt, string)>)
    ensures r.Some? ==> |r.value.1| < |s|
  {
    match (Cut(w), ReadExpr(s))
    case (Some((path, name)), Some((e, after))) =>
      if !(")" <= after) then None
      else if name == "add" then Some((CallAdd(path, e), after[1..]))
      else if name == "remove" then Some((CallRemove(path, e), after[1..]))
      else None
    case _ => None
  }

  function ReadAssignment(path: string, s: string): (r: Option<(Stmt, string)>)
    ensures r.Some? ==> |r.value.1| < |s|
  {
    if " = " <= s then
      match ReadExpr(s[3..]) case None => None case Some((e, rest)) => Some((Assign(path, e), rest))
    else if " += " <= s then
      match ReadExpr(s[4..]) case None => None case Some((e, rest)) => Some((AddAssign(path, e), rest))
    else if " -= " <= s then
      match ReadExpr(s[4..]) case None => None case Some((e, rest)) => Some((SubAssign(path, e), rest))
    else None
  }

  function ReadStmt(s: string): (r: Option<(Stmt, string)>)
    ensures r.Some? ==> |r.value.1| < |s|
    decreases |s|
  {
    if "if (" <= s then
      match ReadCond(s[4..])
      case None => None
      case Some((cond, rest)) =>
        if !(") {" <= rest) then None
        else
          match ReadStmt(rest[3..])
          case None => None
          case Some((body, end)) => if "}" <= end then Some((If(cond, body), end[1..])) else None
    else
      var w := Word(s);
      var rest := s[|w|..];
      if !(FIELD <= w) then None
      else if "(" <= rest then ReadCall(w[|FIELD|..], rest[1..])
      else ReadAssignment(w[|FIELD|..], rest)
  }

  predicate PlainStmt(s: Stmt) {
    match s
    case If(cond, body) => PlainCond(cond) && PlainStmt(body)
    case _ => IsWord(s.path) && PlainExpr(s.e)
  }

  /** A statement that goes on with a space behind its field is an assignment. */
  lemma AssignmentRead(path: string, behind: string)
    requires IsWord(path) && behind != "" && behind[0] == ' '
    ensures ReadStmt(Source(path) + behind) == ReadAssignment(path, behind)
  {
    ReadsField(path, behind);
    assert (Source(path) + behind)[0] == 'c';
  }

  /** One step of the reader at each assignment. */
  lemma SetRead(path: string, e: Expr, s: string, rest: string)
    requires ReadExpr(s) == Some((e, rest))
    ensures ReadAssignment(path, " = " + s) == Some((Assign(path, e), rest))
  {
    Skip(" = ", s);
  }

  lemma AddRead(path: string, e: Expr, s: string, rest: string)
    requires ReadExpr(s) == Some((e, rest))
    ensures ReadAssignment(path, " += " + s) == Some((AddAssign(path, e), rest))
  {
    Skip(" += ", s);
    assert (" += " + s)[1] == '+';
  }

  lemma SubtractRead(path: string, e: Expr, s: string, rest: string)
    requires ReadExpr(s) == Some((e, rest))
    ensures ReadAssignment(path, " -= " + s) == Some((SubAssign(path, e), rest))
  {
    Skip(" -= ", s);
    assert (" -= " + s)[1] == '-';
  }

  lemma MarkApart(path: string, mark: string, text: string, rest: string)
    ensures Source(path) + mark + text + rest == Source(path) + (mark + (text + rest))
  {
  }

  lemma ReadsAssignment(s: Stmt, rest: string)
    requires PlainStmt(s) && After(rest) && (s.Assign? || s.AddAssign? || s.SubAssign?)
    ensures ReadStmt(Render(s) + rest) == Some((s, rest))
  {
    var text := RenderExpr(s.e) + rest;
    ReadsExpr(s.e, rest);
    match s
    case Assign(path, e) =>
      MarkApart(path, " = ", RenderExpr(e), rest);
      AssignmentRead(path, " = " + text);
      SetRead(path, e, text, rest);
    case AddAssign(path, e) =>
      MarkApart(path, " += ", RenderExpr(e), rest);
      AssignmentRead(path, " += " + text);
      AddRead(path, e, text, rest);
    case SubAssign(path, e) =>
      MarkApart(path, " -= ", RenderExpr(e), rest);
      AssignmentRead(path, " -= " + text);
      SubtractRead(path, e, text, rest);
  }

  /** One step of the reader at a call on a list. */
  lemma ListCallRead(s: string, path: string, name: string, inner: string, e: Expr, rest: string)
    requires CallOn(s, path, name, inner) && ReadExpr(inner) == Some((e, ")" + rest)) && name in {"add", "remove"}
    ensures ReadStmt(s) == Some((if name == "add" then CallAdd(path, e) else CallRemove(path, e), rest))
  {
    Skip(")", rest);
  }

  lemma ReadsListCall(s: Stmt, rest: string)
    requires PlainStmt(s) && (s.CallAdd? || s.CallRemove?)
    ensures ReadStmt(Render(s) + rest) == Some((s, rest))
  {
    var name := if s.CallAdd? then "add" else "remove";
    CallText(s.path, name, RenderExpr(s.e), rest);
    ReadsExpr(s.e, ")" + rest);
    ListCallRead(Render(s) + rest, s.path, name, RenderExpr(s.e) + (")" + rest), s.e, rest);
  }

  /** One step of the reader at a block. */
  lemma BlockRead(cond: Cond, inCond: string, body: Stmt, inBody: string, rest: string)
    requires ReadCond(inCond) == Some((cond, ") {" + inBody)) && ReadStmt(inBody) == Some((body, "}" + rest))
    ensures ReadStmt("if (" + inCond) == Some((If(cond, body), rest))
  {
    Skip("if (", inCond);
    Skip(") {", inBody);
    Skip("}", rest);
  }

  lemma BlockApart(cond: string, body: string, rest: string)
    ensures "if (" + cond + ") {" + body + "}" + rest == "if (" + (cond + (") {" + (body + ("}" + rest))))
  {
  }

  /** Reading undoes rendering. */
  lemma {:induction false} ReadsStmt(s: Stmt, rest: string)
    requires PlainStmt(s) && After(rest)
    ensures ReadStmt(Render(s) + rest) == Some((s, rest))
    decreases s
  {
    match s
    case If(cond, body) =>
      var inBody := Render(body) + ("}" + rest);
      ReadsStmt(body, "}" + rest);
      ReadsCond(cond, ") {" + inBody);
      BlockApart(RenderCond(cond), Render(body), rest);
      BlockRead(cond, RenderCond(cond) + (") {" + inBody), body, inBody, rest);
    case CallAdd(_, _) => ReadsListCall(s, rest);
    case CallRemove(_, _) => ReadsListCall(s, rest);
    case _ => ReadsAssignment(s, rest);
  }

  // ---------------------------------------------------------------- scripts

  /** Statements follow each other on lines of their own, after a semicolon unless one is a block. */
  function ReadScript(s: string): Option<seq<Stmt>>
    decreases |s|
  {
    if s == "" then Some([])
    else
      match ReadStmt(s)
      case None => None
      case Some((first, rest)) =>
        var mark := if first.If? then "\n" else ";\n";
        if rest == "" then Some([first])
        else if !(mark <= rest) then None
        else
          match ReadScript(rest[|mark|..])
          case None => None
          case Some(more) => Some([first] + more)
  }

  /** What a script does as a text; a text that cannot be read is an error. */
  function RunText(source: string, doc: Document, params: Params): Option<Document> {
    match ReadScript(source)
    case None => None
    case Some(script) => Run(script, doc, params)
  }

  lemma RenderNotEmpty(s: Stmt)
    ensures Render(s) != ""
  {
  }

  /** One step of the reader between two lines. */
  lemma LineRead(s: string, first: Stmt, rest: string, more: seq<Stmt>)
    requires s != "" && ReadStmt(s) == Some((first, (if first.If? then "\n" else ";\n") + rest))
    requires ReadScript(rest) == Some(more)
    ensures ReadScript(s) == Some([first] + more)
  {
    Skip(if first.If? then "\n" else ";\n", rest);
  }

  lemma LastLineRead(last: Stmt)
    requires PlainStmt(last)
    ensures ReadScript(Render(last)) == Some([last])
  {
    RenderNotEmpty(last);
    ReadsStmt(last, "");
    assert Render(last) + "" == Render(last);
  }

  lemma LinesApart(first: Stmt, more: seq<Stmt>)
    requires more != []
    ensures Lines([first] + more) == Render(first) + ((if first.If? then "\n" else ";\n") + Lines(more))
  {
    assert ([first] + more)[1..] == more;
  }

  lemma {:induction false} ReadsLines(script: seq<Stmt>)
    requires forall s :: s in script ==> PlainStmt(s)
    ensures ReadScript(Lines(script)) == Some(script)
  {
    if |script| == 1 {
      assert script == [script[0]];
      LastLineRead(script[0]);
    } else if script != [] {
      var first, more := script[0], script[1..];
      assert script == [first] + more;
      LinesApart(first, more);
      RenderNotEmpty(first);
      ReadsStmt(first, (if first.If? then "\n" else ";\n") + Lines(more));
      ReadsLines(more);
      LineRead(Lines(script), first, Lines(more), more);
    }
  }

  lemma ParamIsWord(id: nat)
    ensures IsWord(ParamName(id))
  {
    DecimalDigits(id);
  }

  lemma CompiledIsPlain(op: Operation, id: nat)
    requires IsWord(op.key)
    ensures PlainStmt(Compile(op, id))
  {
    ParamIsWord(id);
    assert PlainExpr(Param(ParamName(id)));
  }

  /** The text of the script, read as Painless and run, does what the operations say. */
  lemma TextDoesOperations(ops: seq<Operation>, doc: Document, params: Params)
    requires Binds(params, ops) && forall op :: op in ops ==> IsWord(op.key)
    ensures RunText(Lines(CompileAll(ops)), doc, params) == ApplyAll(ops, doc)
  {
    forall s | s in CompileAll(ops) ensures PlainStmt(s) {
      var i :| 0 <= i < |ops| && s == Compile(ops[i], i);
      assert ops[i] in ops;
      CompiledIsPlain(ops[i], i);
    }
    ReadsLines(CompileAll(ops));
    CompiledScript(ops, doc, params);
  }
}
