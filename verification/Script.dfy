/** The compiler from update operations to a Painless script, and the meaning of both. */
module Script {
  import opened Wrappers
  import opened Strings

  // ---------------------------------------------------------------- documents

  datatype Value =
    | Null
    | Number(n: int)
    | Text(s: string)
    | Items(items: seq<Value>)
    | Fields(fields: map<string, Value>)

  /** A document by dotted path. */
  type Document = map<string, Value>

  function Get(doc: Document, path: string): Value {
    if path in doc then doc[path] else Null
  }

  // ---------------------------------------------------------------- operations and what they promise

  datatype Kind = Set | Delete | Append | AppendIfMissing | Remove | Inc | Dec | Max | Min

  datatype Operation = Operation(kind: Kind, key: string, value: Value)

  /** A list without the first occurrence of `x`. */
  function RemoveFirst(xs: seq<Value>, x: Value): seq<Value> {
    if xs == [] then []
    else if xs[0] == x then xs[1..]
    else [xs[0]] + RemoveFirst(xs[1..], x)
  }

  /** The order of numbers and of texts; other values are not comparable. */
  function Compare(a: Value, b: Value): Option<int> {
    match (a, b)
    case (Number(m), Number(n)) => Some(if m < n then -1 else if m == n then 0 else 1)
    case (Text(s), Text(t)) => Some(if s == t then 0 else if Le(s, t) then -1 else 1)
    case _ => None
  }

  /** One operation on a document; `None` when the field does not admit it. */
  function Apply(op: Operation, doc: Document): Option<Document> {
    var was := Get(doc, op.key);
    match op.kind
    case Set => Some(doc[op.key := op.value])
    case Delete =>
      if was.Fields? && op.value.Text? then Some(doc[op.key := Fields(was.fields - {op.value.s})])
      else if was.Items? && op.value.Number? && 0 <= op.value.n < |was.items| then
        Some(doc[op.key := Items(was.items[..op.value.n] + was.items[op.value.n + 1..])])
      else None
    case Append => if was.Items? then Some(doc[op.key := Items(was.items + [op.value])]) else None
    case AppendIfMissing =>
      if !was.Items? then None
      else if op.value in was.items then Some(doc)
      else Some(doc[op.key := Items(was.items + [op.value])])
    case Remove =>
      if !was.Items? then None
      else if op.value in was.items then Some(doc[op.key := Items(RemoveFirst(was.items, op.value))])
      else Some(doc)
    case Inc => Plus(doc, op.key, was, op.value)
    case Dec => if was.Number? && op.value.Number? then Some(doc[op.key := Number(was.n - op.value.n)]) else None
    case Max =>
      if was == Null then Some(doc[op.key := op.value])
      else var c := Compare(was, op.value);
        if c.None? then None else if c.value < 0 then Some(doc[op.key := op.value]) else Some(doc)
    case Min =>
      if was == Null then Some(doc[op.key := op.value])
      else var c := Compare(was, op.value);
        if c.None? then None else if c.value > 0 then Some(doc[op.key := op.value]) else Some(doc)
  }

  function Plus(doc: Document, key: string, was: Value, v: Value): Option<Document> {
    match (was, v)
    case (Number(m), Number(n)) => Some(doc[key := Number(m + n)])
    case (Text(s), Text(t)) => Some(doc[key := Text(s + t)])
    case _ => None
  }

  /** All operations from left to right, or none when one of them is not admitted. */
  function ApplyAll(ops: seq<Operation>, doc: Document): Option<Document> {
    if ops == [] then Some(doc)
    else
      var before := ApplyAll(ops[..|ops| - 1], doc);
      if before.None? then None else Apply(ops[|ops| - 1], before.value)
  }

  // ---------------------------------------------------------------- the script language

  /** `ctx._source.path`, `params.name` and the calls the compiler emits. */
  datatype Expr = Param(name: string) | Field(path: string) | IndexOf(path: string, arg: Expr)
    | CompareTo(path: string, arg: Expr)

  datatype Cond = IsNull(path: string) | Equals(e: Expr, n: int) | Differs(e: Expr, n: int) | Below(e: Expr, n: int)
    | Above(e: Expr, n: int) | Either(a: Cond, b: Cond)

  datatype Stmt =
    | Assign(path: string, e: Expr)
    | AddAssign(path: string, e: Expr)
    | SubAssign(path: string, e: Expr)
    | CallAdd(path: string, e: Expr)
    | CallRemove(path: string, e: Expr)
    | If(cond: Cond, body: Stmt)

  type Params = map<string, Value>

  function Position(xs: seq<Value>, x: Value): int {
    if xs == [] then -1
    else if xs[0] == x then 0
    else var rest := Position(xs[1..], x); if rest < 0 then -1 else rest + 1
  }

  function Eval(e: Expr, doc: Document, params: Params): Option<Value> {
    match e
    case Param(name) => Some(if name in params then params[name] else Null)
    case Field(path) => Some(Get(doc, path))
    case IndexOf(path, arg) =>
      var v := Eval(arg, doc, params);
      if v.Some? && Get(doc, path).Items? then Some(Number(Position(Get(doc, path).items, v.value))) else None
    case CompareTo(path, arg) =>
      var v := Eval(arg, doc, params);
      if v.None? then None
      else var c := Compare(Get(doc, path), v.value); if c.None? then None else Some(Number(c.value))
  }

  function Test(c: Cond, doc: Document, params: Params): Option<bool> {
    match c
    case IsNull(path) => Some(Get(doc, path) == Null)
    case Equals(e, n) => var v := Eval(e, doc, params); if v.None? then None else Some(v.value == Number(n))
    case Differs(e, n) => var v := Eval(e, doc, params); if v.None? then None else Some(v.value != Number(n))
    case Below(e, n) => var v := Eval(e, doc, params); if v.Some? && v.value.Number? then Some(v.value.n < n) else None
    case Above(e, n) => var v := Eval(e, doc, params); if v.Some? && v.value.Number? then Some(v.value.n > n) else None
    case Either(a, b) =>
      var left := Test(a, doc, params);
      if left.None? then None else if left.value then Some(true) else Test(b, doc, params)
  }

  function Execute(s: Stmt, doc: Document, params: Params): Option<Document> {
    match s
    case If(cond, body) =>
      var t := Test(cond, doc, params);
      if t.None? then None else if t.value then Execute(body, doc, params) else Some(doc)
    case Assign(path, e) => var v := Eval(e, doc, params); if v.None? then None else Some(doc[path := v.value])
    case AddAssign(path, e) => var v := Eval(e, doc, params);
      if v.None? then None else Plus(doc, path, Get(doc, path), v.value)
    case SubAssign(path, e) =>
      var v, was := Eval(e, doc, params), Get(doc, path);
      if v.Some? && v.value.Number? && was.Number? then Some(doc[path := Number(was.n - v.value.n)]) else None
    case CallAdd(path, e) =>
      var v, was := Eval(e, doc, params), Get(doc, path);
      if v.Some? && was.Items? then Some(doc[path := Items(was.items + [v.value])]) else None
    case CallRemove(path, e) =>
      var v, was := Eval(e, doc, params), Get(doc, path);
      if v.None? then None
      else if was.Fields? && v.value.Text? then Some(doc[path := Fields(was.fields - {v.value.s})])
      else if was.Items? && v.value.Number? && 0 <= v.value.n < |was.items| then
        Some(doc[path := Items(was.items[..v.value.n] + was.items[v.value.n + 1..])])
      else None
  }

  /** A script runs its statements in order; an error anywhere leaves the document alone. */
  function Run(script: seq<Stmt>, doc: Document, params: Params): Option<Document> {
    if script == [] then Some(doc)
    else
      var before := Run(script[..|script| - 1], doc, params);
      if before.None? then None else Execute(script[|script| - 1], before.value, params)
  }

  // ---------------------------------------------------------------- the compiler

  function ParamName(id: nat): string { "value" + Decimal(id) }

  function Compile(op: Operation, id: nat): Stmt {
    var k, v := op.key, Param(ParamName(id));
    match op.kind
    case Set => Assign(k, v)
    case Delete => CallRemove(k, v)
    case Append => CallAdd(k, v)
    case AppendIfMissing => If(Equals(IndexOf(k, v), -1), CallAdd(k, v))
    case Remove => If(Differs(IndexOf(k, v), -1), CallRemove(k, IndexOf(k, v)))
    case Inc => AddAssign(k, v)
    case Dec => SubAssign(k, v)
    case Max => If(Either(IsNull(k), Below(CompareTo(k, v), 0)), Assign(k, v))
    case Min => If(Either(IsNull(k), Above(CompareTo(k, v), 0)), Assign(k, v))
  }

  function CompileAll(ops: seq<Operation>): seq<Stmt> {
    seq(|ops|, i requires 0 <= i < |ops| => Compile(ops[i], i))
  }

  /** Every parameter name is bound to the value of its operation. */
  ghost predicate Binds(params: Params, ops: seq<Operation>) {
    forall i :: 0 <= i < |ops| ==> ParamName(i) in params && params[ParamName(i)] == ops[i].value
  }

  lemma ParamNamesDiffer(i: nat, j: nat)
    ensures ParamName(i) == ParamName(j) <==> i == j
  {
    assert ParamName(i)[5..] == Decimal(i) && ParamName(j)[5..] == Decimal(j);
    DecimalFacts(i);
    DecimalFacts(j);
  }

  lemma {:induction false} PositionFacts(xs: seq<Value>, x: Value)
    ensures Position(xs, x) == -1 <==> x !in xs
    ensures -1 <= Position(xs, x) < |xs|
    ensures x in xs ==> var p := Position(xs, x); xs[..p] + xs[p + 1..] == RemoveFirst(xs, x)
  {
    if xs != [] && xs[0] != x {
      PositionFacts(xs[1..], x);
      assert xs == [xs[0]] + xs[1..];
      if x in xs {
        var p := Position(xs[1..], x);
        assert xs[..p + 1] == [xs[0]] + xs[1..][..p];
        assert xs[p + 2..] == xs[1..][p + 1..];
      }
    }
  }

  /** What the compiled expressions come to. */
  lemma CompiledParts(op: Operation, id: nat, doc: Document, params: Params)
    requires ParamName(id) in params && params[ParamName(id)] == op.value
    ensures var (was, v) := (Get(doc, op.key), Param(ParamName(id)));
            && Eval(v, doc, params) == Some(op.value)
            && Eval(IndexOf(op.key, v), doc, params)
               == (if was.Items? then Some(Number(Position(was.items, op.value))) else None)
            && Test(IsNull(op.key), doc, params) == Some(was == Null)
            && Execute(CallAdd(op.key, v), doc, params)
               == (if was.Items? then Some(doc[op.key := Items(was.items + [op.value])]) else None)
            && Execute(Assign(op.key, v), doc, params) == Some(doc[op.key := op.value])
  {
  }

  lemma ComparedParts(op: Operation, id: nat, doc: Document, params: Params)
    requires ParamName(id) in params && params[ParamName(id)] == op.value
    ensures var (c, v) := (Compare(Get(doc, op.key), op.value), Param(ParamName(id)));
            && Test(Below(CompareTo(op.key, v), 0), doc, params) == (if c.None? then None else Some(c.value < 0))
            && Test(Above(CompareTo(op.key, v), 0), doc, params) == (if c.None? then None else Some(c.value > 0))
  {
    var c, v := Compare(Get(doc, op.key), op.value), Param(ParamName(id));
    assert Eval(v, doc, params) == Some(op.value);
    assert Eval(CompareTo(op.key, v), doc, params) == if c.None? then None else Some(Number(c.value));
  }

  lemma CompiledSearch(op: Operation, id: nat, doc: Document, params: Params)
    requires ParamName(id) in params && params[ParamName(id)] == op.value
    ensures var (was, found) := (Get(doc, op.key), IndexOf(op.key, Param(ParamName(id))));
            && Test(Equals(found, -1), doc, params) == (if was.Items? then Some(op.value !in was.items) else None)
            && Test(Differs(found, -1), doc, params) == (if was.Items? then Some(op.value in was.items) else None)
            && (was.Items? && op.value in was.items ==>
                  Execute(CallRemove(op.key, found), doc, params)
                    == Some(doc[op.key := Items(RemoveFirst(was.items, op.value))]))
  {
    CompiledParts(op, id, doc, params);
    if Get(doc, op.key).Items? {
      PositionFacts(Get(doc, op.key).items, op.value);
    }
  }

  lemma CompiledOnList(op: Operation, id: nat, doc: Document, params: Params)
    requires ParamName(id) in params && params[ParamName(id)] == op.value
    requires op.kind in {Append, AppendIfMissing, Remove}
    ensures Execute(Compile(op, id), doc, params) == Apply(op, doc)
  {
    CompiledParts(op, id, doc, params);
    CompiledSearch(op, id, doc, params);
  }

  lemma CompiledOnOrder(op: Operation, id: nat, doc: Document, params: Params)
    requires ParamName(id) in params && params[ParamName(id)] == op.value && op.kind in {Max, Min}
    ensures Execute(Compile(op, id), doc, params) == Apply(op, doc)
  {
    CompiledParts(op, id, doc, params);
    ComparedParts(op, id, doc, params);
  }

  lemma CompiledStatement(op: Operation, id: nat, doc: Document, params: Params)
    requires ParamName(id) in params && params[ParamName(id)] == op.value
    ensures Execute(Compile(op, id), doc, params) == Apply(op, doc)
  {
    if op.kind in {Append, AppendIfMissing, Remove} {
      CompiledOnList(op, id, doc, params);
    } else if op.kind in {Max, Min} {
      CompiledOnOrder(op, id, doc, params);
    } else {
      CompiledParts(op, id, doc, params);
    }
  }

  /** Running the compiled script is applying the operations from left to right. */
  lemma {:induction false} CompiledScript(ops: seq<Operation>, doc: Document, params: Params)
    requires Binds(params, ops)
    ensures Run(CompileAll(ops), doc, params) == ApplyAll(ops, doc)
  {
    if ops != [] {
      var init := ops[..|ops| - 1];
      assert CompileAll(ops)[..|ops| - 1] == CompileAll(init);
      CompiledScript(init, doc, params);
      var before := ApplyAll(init, doc);
      if before.Some? {
        CompiledStatement(ops[|ops| - 1], |ops| - 1, before.value, params);
      }
    }
  }

  // ---------------------------------------------------------------- the script's text

  /** `s.replace("};\n", "}\n")`. */
  function DropSemicolons(s: string): string
    decreases |s|
  {
    if s == "" then ""
    else if "};\n" <= s then "}\n" + DropSemicolons(s[3..])
    else [s[0]] + DropSemicolons(s[1..])
  }

  function Source(path: string): string { "ctx._source." + path }

  /** A call on a field. */
  function Call(path: string, name: string, arg: string): string { Source(path) + ("." + name + "(") + arg + ")" }

  function RenderExpr(e: Expr): string {
    match e
    case Param(name) => "params." + name
    case Field(path) => Source(path)
    case IndexOf(path, arg) => Call(path, "indexOf", RenderExpr(arg))
    case CompareTo(path, arg) => Call(path, "compareTo", RenderExpr(arg))
  }

  function Integer(n: int): string {
    if n < 0 then "-" + Decimal(-n) else Decimal(n)
  }

  function RenderCond(c: Cond): string {
    match c
    case IsNull(path) => Source(path) + " == null"
    case Equals(e, n) => RenderExpr(e) + " == " + Integer(n)
    case Differs(e, n) => RenderExpr(e) + " != " + Integer(n)
    case Below(e, n) => RenderExpr(e) + " < " + Integer(n)
    case Above(e, n) => RenderExpr(e) + " > " + Integer(n)
    case Either(a, b) => RenderCond(a) + " || " + RenderCond(b)
  }

  function Render(s: Stmt): string {
    match s
    case Assign(path, e) => Source(path) + " = " + RenderExpr(e)
    case AddAssign(path, e) => Source(path) + " += " + RenderExpr(e)
    case SubAssign(path, e) => Source(path) + " -= " + RenderExpr(e)
    case CallAdd(path, e) => Call(path, "add", RenderExpr(e))
    case CallRemove(path, e) => Call(path, "remove", RenderExpr(e))
    case If(cond, body) => "if (" + RenderCond(cond) + ") {" + Render(body) + "}"
  }

  function RenderAll(script: seq<Stmt>): seq<string> {
    if script == [] then [] else [Render(script[0])] + RenderAll(script[1..])
  }

  /** The statements in order, one a line, with a semicolon after each but blocks and the last. */
  function Lines(script: seq<Stmt>): string {
    if script == [] then ""
    else if |script| == 1 then Render(script[0])
    else Render(script[0]) + (if script[0].If? then "\n" else ";\n") + Lines(script[1..])
  }

  /** A rendered statement that stays on its line and ends in a brace exactly when it is a block. */
  ghost predicate OnOneLine(s: Stmt) {
    var t := Render(s);
    t != "" && '\n' !in t && (t[|t| - 1] == '}' <==> s.If?)
  }

  lemma DecimalDigits(n: nat)
    ensures forall c :: c in Decimal(n) ==> '0' <= c <= '9'
  {
    if n >= 10 {
      DecimalDigits(n / 10);
    }
  }

  lemma NumberIsPlain(n: nat)
    ensures '\n' !in Decimal(n) && '}' !in Decimal(n) && Decimal(n) != ""
  {
    DecimalDigits(n);
    DecimalFacts(n);
  }

  /** The parameter of an operation, its index and its comparison, as text. */
  lemma ExprsArePlain(k: string, id: nat)
    requires '\n' !in k
    ensures var p := RenderExpr(Param(ParamName(id)));
            '\n' !in p && p != "" && p[|p| - 1] != '}'
    ensures '\n' !in RenderExpr(IndexOf(k, Param(ParamName(id))))
    ensures '\n' !in RenderExpr(CompareTo(k, Param(ParamName(id))))
    ensures '\n' !in Source(k) && '\n' !in Integer(-1) && '\n' !in Integer(0)
  {
    NumberIsPlain(id);
    NumberIsPlain(1);
    NumberIsPlain(0);
    var p := RenderExpr(Param(ParamName(id)));
    assert p == "params.value" + Decimal(id);
    assert p[|p| - 1] == Decimal(id)[|Decimal(id)| - 1];
    assert '\n' !in Source(k) && '\n' !in p;
  }

  lemma SimpleOnOneLine(k: string, id: nat)
    requires '\n' !in k
    ensures var v := Param(ParamName(id));
            && OnOneLine(Assign(k, v)) && OnOneLine(AddAssign(k, v)) && OnOneLine(SubAssign(k, v))
            && OnOneLine(CallAdd(k, v)) && OnOneLine(CallRemove(k, v)) && OnOneLine(CallRemove(k, IndexOf(k, v)))
  {
    ExprsArePlain(k, id);
    var v := Param(ParamName(id));
    var p := RenderExpr(v);
    EndsLike(Source(k) + " = ", p);
    EndsLike(Source(k) + " += ", p);
    EndsLike(Source(k) + " -= ", p);
  }

  lemma EndsLike(a: string, b: string)
    requires b != ""
    ensures (a + b)[|a + b| - 1] == b[|b| - 1]
  {
  }

  lemma BlockOnOneLine(cond: Cond, body: Stmt)
    requires '\n' !in RenderCond(cond) && OnOneLine(body)
    ensures OnOneLine(If(cond, body))
  {
  }

  lemma CompiledOnOneLine(op: Operation, id: nat)
    requires '\n' !in op.key
    ensures OnOneLine(Compile(op, id))
  {
    var k, v := op.key, Param(ParamName(id));
    ExprsArePlain(k, id);
    SimpleOnOneLine(k, id);
    match op.kind
    case AppendIfMissing => BlockOnOneLine(Equals(IndexOf(k, v), -1), CallAdd(k, v));
    case Remove => BlockOnOneLine(Differs(IndexOf(k, v), -1), CallRemove(k, IndexOf(k, v)));
    case Max => BlockOnOneLine(Either(IsNull(k), Below(CompareTo(k, v), 0)), Assign(k, v));
    case Min => BlockOnOneLine(Either(IsNull(k), Above(CompareTo(k, v), 0)), Assign(k, v));
    case _ =>
  }

  /** Up to the end of a line nothing is replaced but the semicolon after a closing brace. */
  lemma {:induction false} DropInLine(line: string, rest: string)
    requires line != "" && '\n' !in line
    ensures DropSemicolons(line + ";\n" + rest)
         == line + (if line[|line| - 1] == '}' then "\n" else ";\n") + DropSemicolons(rest)
  {
    var s := line + ";\n" + rest;
    if |line| == 1 {
      if line[0] == '}' {
        assert s[..3] == "};\n" && s[3..] == rest;
      } else {
        assert s[1..] == ";\n" + rest;
        assert (";\n" + rest)[1..] == "\n" + rest;
        assert ("\n" + rest)[1..] == rest;
        assert s[0] == line[0] && line == [line[0]];
        assert DropSemicolons("\n" + rest) == "\n" + DropSemicolons(rest);
        assert DropSemicolons(";\n" + rest) == ";" + ("\n" + DropSemicolons(rest));
      }
    } else {
      assert s[1..] == line[1..] + ";\n" + rest;
      assert s[2] != '\n' by {
        if |line| == 2 { assert s[2] == ';'; } else { assert s[2] == line[2] && line[2] in line; }
      }
      DropInLine(line[1..], rest);
      assert line == [line[0]] + line[1..];
    }
  }

  lemma {:induction false} DropInLastLine(line: string)
    requires '\n' !in line
    ensures DropSemicolons(line) == line
  {
    if line != "" {
      assert |line| >= 3 ==> line[2] in line;
      DropInLastLine(line[1..]);
      assert line == [line[0]] + line[1..];
    }
  }

  /** The clean-up of the joined text removes exactly the semicolons after blocks. */
  lemma {:induction false} JoinedText(script: seq<Stmt>)
    requires forall s :: s in script ==> OnOneLine(s)
    ensures DropSemicolons(Join(";\n", RenderAll(script))) == Lines(script)
  {
    if script != [] {
      assert script[0] in script;
      if |script| == 1 {
        assert RenderAll(script) == [Render(script[0])];
        DropInLastLine(Render(script[0]));
      } else {
        assert forall s :: s in script[1..] ==> s in script;
        JoinedText(script[1..]);
        assert RenderAll(script)[1..] == RenderAll(script[1..]);
        RenderAllLength(script);
        DropInLine(Render(script[0]), Join(";\n", RenderAll(script[1..])));
      }
    }
  }

  lemma {:induction false} RenderAllLength(script: seq<Stmt>)
    ensures |RenderAll(script)| == |script|
    ensures forall i :: 0 <= i < |script| ==> RenderAll(script)[i] == Render(script[i])
  {
    if script != [] {
      RenderAllLength(script[1..]);
    }
  }

  /** `_create_scripts_from_operations`. */
  method CreateScript(ops: seq<Operation>) returns (source: string, params: Params)
    ensures Binds(params, ops)
    ensures source == DropSemicolons(Join(";\n", RenderAll(CompileAll(ops))))
    ensures (forall op :: op in ops ==> '\n' !in op.key) ==> source == Lines(CompileAll(ops))
  {
    var opSources: seq<string> := [];
    params := map[];
    for valId := 0 to |ops|
      invariant |opSources| == valId && forall i :: 0 <= i < valId ==> opSources[i] == Render(Compile(ops[i], i))
      invariant forall i :: 0 <= i < valId ==> ParamName(i) in params && params[ParamName(i)] == ops[i].value
    {
      var text := SourceOf(ops[valId], valId);
      opSources := opSources + [text];
      forall i | 0 <= i < valId ensures ParamName(i) != ParamName(valId) {
        ParamNamesDiffer(i, valId);
      }
      params := params[ParamName(valId) := ops[valId].value];
    }
    RenderAllLength(CompileAll(ops));
    assert opSources == RenderAll(CompileAll(ops));
    source := DropSemicolons(Join(";\n", opSources));
    if forall op :: op in ops ==> '\n' !in op.key {
      forall i | 0 <= i < |ops| ensures OnOneLine(Compile(ops[i], i)) {
        assert ops[i] in ops;
        CompiledOnOneLine(ops[i], i);
      }
      JoinedText(CompileAll(ops));
    }
  }

  lemma IndexOfText(path: string, v: string)
    ensures Call(path, "indexOf", v) == Source(path) + ".indexOf(" + v + ")"
  {
    assert "." + "indexOf" + "(" == ".indexOf(";
  }

  lemma CompareToText(path: string, v: string)
    ensures Call(path, "compareTo", v) == Source(path) + ".compareTo(" + v + ")"
  {
    assert "." + "compareTo" + "(" == ".compareTo(";
  }

  lemma ListCallTexts(path: string, v: string)
    ensures Call(path, "add", v) == Source(path) + ".add(" + v + ")"
    ensures Call(path, "remove", v) == Source(path) + ".remove(" + v + ")"
  {
    assert "." + "add" + "(" == ".add(" && "." + "remove" + "(" == ".remove(";
  }

  lemma IntegerTexts()
    ensures Integer(0) == "0" && Integer(-1) == "-1"
  {
    assert Decimal(0) == "0" && Decimal(1) == "1";
  }

  /** The conditions of the compiled blocks, as text. */
  lemma SearchTexts(path: string, v: Expr)
    ensures RenderCond(Equals(IndexOf(path, v), -1)) == Source(path) + ".indexOf(" + RenderExpr(v) + ")" + " == -1"
    ensures RenderCond(Differs(IndexOf(path, v), -1)) == Source(path) + ".indexOf(" + RenderExpr(v) + ")" + " != -1"
  {
    IndexOfText(path, RenderExpr(v));
    IntegerTexts();
    var at := Source(path) + ".indexOf(" + RenderExpr(v) + ")";
    assert at + " == " + "-1" == at + " == -1" && at + " != " + "-1" == at + " != -1";
  }

  lemma OrderTexts(path: string, v: Expr)
    ensures var (k, p) := (Source(path), RenderExpr(v));
            && RenderCond(Either(IsNull(path), Below(CompareTo(path, v), 0)))
               == k + " == null" + " || " + (k + ".compareTo(" + p + ")" + " < 0")
            && RenderCond(Either(IsNull(path), Above(CompareTo(path, v), 0)))
               == k + " == null" + " || " + (k + ".compareTo(" + p + ")" + " > 0")
  {
    CompareToText(path, RenderExpr(v));
    IntegerTexts();
    var versus := Source(path) + ".compareTo(" + RenderExpr(v) + ")";
    assert versus + " < " + "0" == versus + " < 0" && versus + " > " + "0" == versus + " > 0";
  }

  /** The text of one operation. */
  method SourceOf(op: Operation, id: nat) returns (text: string)
    ensures text == Render(Compile(op, id))
  {
    var k, v := "ctx._source." + op.key, "params.value" + Decimal(id);
    ghost var p := Param(ParamName(id));
    assert v == RenderExpr(p);
    ListCallTexts(op.key, v);
    ListCallTexts(op.key, RenderExpr(IndexOf(op.key, p)));
    IndexOfText(op.key, v);
    SearchTexts(op.key, p);
    OrderTexts(op.key, p);
    var at, versus := k + ".indexOf(" + v + ")", k + ".compareTo(" + v + ")";
    match op.kind
    case Set => text := k + " = " + v;
    case Delete => text := k + ".remove(" + v + ")";
    case Append => text := k + ".add(" + v + ")";
    case AppendIfMissing => text := "if (" + (at + " == -1") + ") {" + (k + ".add(" + v + ")") + "}";
    case Remove => text := "if (" + (at + " != -1") + ") {" + (k + ".remove(" + at + ")") + "}";
    case Inc => text := k + " += " + v;
    case Dec => text := k + " -= " + v;
    case Max => text := "if (" + (k + " == null" + " || " + (versus + " < 0")) + ") {" + (k + " = " + v) + "}";
    case Min => text := "if (" + (k + " == null" + " || " + (versus + " > 0")) + ") {" + (k + " = " + v) + "}";
  }
}
