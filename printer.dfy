// The AST printer of src/printer.cc: every node is written to an output
// stream in a fully parenthesised source form; each top-level
// declaration is followed by the newline character given to the printer,
// and block entries are indented by a given number of spaces.
//
// The output stream is the text written so far. The pure functions below
// say what each printing method appends; class AstPrinter is the printer
// itself.
module Printer {
  import opened Scanner
  import opened Wrappers

  // ---------------------------------------------------------------------
  // The syntax tree (src/ast): the node kinds the printer dispatches on.

  /** What an Expr node holds. */
  datatype Expr =
    | Group(inner: Expr)                      // an Expr inside an Expr
    | Unary(op: TokenType, operand: Expr)
    | Binary(op: TokenType, left: Expr, right: Expr)
    | Identifier(name: string)
    | Number(printed: string)                 // the text `os << value` writes
    | String(value: string)
    | Boolean(truth: bool)
    | Assign(target: Expr, rvalue: Expr)
    | Call(callee: Expr, args: seq<Expr>)
    | Dot(left: Expr, id: string, tail: DotTail)
    | This(token: TokenType, id: string, hasArgs: bool, args: seq<Expr>)
    | Nil
    | Other                                   // a node kind expr has no branch for

  /** What follows `left.id`: the token of a Dot node with its arguments
      (EQUAL for a property set, LEFT_PAREN for a method call). */
  datatype DotTail = Get | Set(value: Expr) | Invoke(args: seq<Expr>)

  datatype VarDec = VarDec(name: string, init: Option<Expr>)

  datatype FunDec = FunDec(name: string, params: seq<string>, body: seq<Decl>)

  /** `super` is empty when there is no superclass. */
  datatype ClassDec = ClassDec(name: string, super: string, methods: seq<FunDec>)

  /** The initialiser of a for statement: absent, a variable or an expression. */
  datatype ForInit = NoInit | InitVar(v: VarDec) | InitExpr(e: Expr)

  datatype Stat =
    | Print(e: Expr)
    | For(init: ForInit, test: Option<Expr>, iter: Option<Expr>, body: Stat)
    | If(cond: Expr, thenS: Stat, elseS: Option<Stat>)
    | Return(value: Option<Expr>)
    | While(cond: Expr, body: Stat)
    | Break(token: TokenType)                 // BREAK or CONTINUE
    | Block(entries: seq<Decl>)
    | ExprStat(e: Expr)

  /** An entry of a Declaration or a Block. */
  datatype Decl = VarDecl(v: VarDec) | FunDecl(f: FunDec) | ClassDecl(c: ClassDec) | StatDecl(s: Stat)

  // ---------------------------------------------------------------------
  // What each printing method writes.

  /** The operator binary writes between its operands; other tokens write
      nothing. */
  function BinaryOpText(op: TokenType): string
  {
    if op == BANG_EQUAL then " != "
    else if op == EQUAL_EQUAL then " == "
    else if op == GREATER then " > "
    else if op == GREATER_EQUAL then " >= "
    else if op == LESS then " < "
    else if op == LESS_EQUAL then " <= "
    else if op == PLUS then " + "
    else if op == MINUS then " - "
    else if op == ASTERIX then " * "
    else if op == SLASH then " / "
    else if op == AND then " and "
    else if op == OR then " or "
    else if op == DOT then " . "
    else ""
  }

  /** expr: the dispatch on the node kind; kinds without a branch print
      nothing. */
  function ExprText(e: Expr): string
    decreases e, 1
  {
    match e
    case Group(inner) => ExprText(inner)
    case Unary(op, operand) => UnaryText(op, operand)
    case Binary(op, left, right) => BinaryText(op, left, right)
    case Identifier(name) => name
    case Number(printed) => printed
    case String(value) => "\"" + value + "\""
    case Boolean(truth) => if truth then "true" else "false"
    case Assign(target, rvalue) => AssignText(target, rvalue)
    case Call(callee, args) => CallText(callee, args)
    case Dot(left, id, tail) => DotText(left, id, tail)
    case This(token, id, hasArgs, args) => ThisText(token, id, hasArgs, args)
    case Nil => "nil"
    case Other => ""
  }

  function BinaryText(op: TokenType, left: Expr, right: Expr): string
    decreases Binary(op, left, right), 0
  {
    "(" + ExprText(left) + BinaryOpText(op) + ExprText(right) + ")"
  }

  /** unary: an operator other than `!` or `-` prints nothing, not even
      the operand. */
  function UnaryText(op: TokenType, operand: Expr): string
    decreases Unary(op, operand), 0
  {
    if op == BANG then "!" + ExprText(operand)
    else if op == MINUS then "-" + ExprText(operand)
    else ""
  }

  function AssignText(target: Expr, rvalue: Expr): string
    decreases Assign(target, rvalue), 0
  {
    ExprText(target) + " = " + ExprText(rvalue)
  }

  function CallText(callee: Expr, args: seq<Expr>): string
    decreases Call(callee, args), 0
  {
    ExprText(callee) + ArgsText(args)
  }

  function DotTailText(tail: DotTail): string
    decreases tail, 0
  {
    match tail
    case Get => ""
    case Set(value) => " = " + ExprText(value)
    case Invoke(args) => ArgsText(args)
  }

  function DotText(left: Expr, id: string, tail: DotTail): string
    decreases Dot(left, id, tail), 0
  {
    ExprText(left) + "." + id + DotTailText(tail)
  }

  function ThisText(token: TokenType, id: string, hasArgs: bool, args: seq<Expr>): string
    decreases This(token, id, hasArgs, args), 0
  {
    if token == THIS then "this"
    else "super." + id + (if hasArgs then ArgsText(args) else "")
  }

  /** The first n arguments as args writes them: each followed by ", "
      unless it is the last of the list. */
  function ArgsPrefix(args: seq<Expr>, n: nat): string
    requires n <= |args|
    decreases args, 0, n
  {
    if n == 0 then ""
    else ArgsPrefix(args, n - 1) + ExprText(args[n - 1]) + (if n < |args| then ", " else "")
  }

  function ArgsText(args: seq<Expr>): string
    decreases args, 1
  {
    "(" + ArgsPrefix(args, |args|) + ")"
  }

  function InitializerText(init: Option<Expr>): string
  {
    if init.Some? then " = " + ExprText(init.value) else ""
  }

  function VarDecText(v: VarDec): string
  {
    "var " + v.name + InitializerText(v.init)
  }

  /** The first n parameters as funDec writes them. */
  function ParamsPrefix(params: seq<string>, n: nat): string
    requires n <= |params|
  {
    if n == 0 then ""
    else ParamsPrefix(params, n - 1) + params[n - 1] + (if n < |params| then ", " else "")
  }

  function Spaces(n: nat): (s: string)
    ensures |s| == n && forall k :: 0 <= k < n ==> s[k] == ' '
  {
    if n == 0 then "" else Spaces(n - 1) + " "
  }

  /** funDec: `fun ` only for a function, not for a method. */
  function FunDecText(f: FunDec, isFunction: bool, nl: char, indent: nat): string
    decreases f, 2
  {
    (if isFunction then "fun " else "") + f.name + "(" + ParamsPrefix(f.params, |f.params|) + ") "
    + BlockText(f.body, nl, indent)
  }

  /** The first n methods of a class, each followed by the newline. */
  function MethodsPrefix(methods: seq<FunDec>, n: nat, nl: char, indent: nat): string
    requires n <= |methods|
    decreases methods, 0, n
  {
    if n == 0 then "" else MethodsPrefix(methods, n - 1, nl, indent) + FunDecText(methods[n - 1], false, nl, indent) + [nl]
  }

  /** An empty superclass name means there is none. */
  function SuperText(super: string): string
  {
    if super != "" then " < " + super else ""
  }

  function ClassDecText(c: ClassDec, nl: char, indent: nat): string
    decreases c, 2
  {
    "class " + c.name + SuperText(c.super) + " {" + [nl]
    + MethodsPrefix(c.methods, |c.methods|, nl, indent) + "}" + [nl]
  }

  /** The first n entries of a block, each indented. */
  function BlockPrefix(entries: seq<Decl>, n: nat, nl: char, indent: nat): string
    requires n <= |entries|
    decreases entries, 0, n
  {
    if n == 0 then "" else BlockPrefix(entries, n - 1, nl, indent) + Spaces(indent) + DeclText(entries[n - 1], nl, indent)
  }

  function BlockText(entries: seq<Decl>, nl: char, indent: nat): string
    decreases entries, 1
  {
    "{" + [nl] + BlockPrefix(entries, |entries|, nl, indent) + "}"
  }

  function ForInitText(init: ForInit): string
  {
    match init
    case NoInit => ""
    case InitVar(v) => VarDecText(v)
    case InitExpr(e) => ExprText(e)
  }

  function OptExprText(e: Option<Expr>): string
  {
    if e.Some? then ExprText(e.value) else ""
  }

  /** statement: the dispatch on the statement kind. */
  function StatText(s: Stat, nl: char, indent: nat): string
    decreases s, 2
  {
    match s
    case Print(e) => PrintText(e)
    case For(init, test, iter, body) => ForText(init, test, iter, body, nl, indent)
    case If(cond, thenS, elseS) => IfText(cond, thenS, elseS, nl, indent)
    case Return(value) => ReturnText(value)
    case While(cond, body) => WhileText(cond, body, nl, indent)
    case Break(token) => BreakText(token)
    case Block(entries) => BlockText(entries, nl, indent)
    case ExprStat(e) => ExprText(e) + ";"
  }

  function PrintText(e: Expr): string
  {
    "print " + ExprText(e) + ";"
  }

  function ForText(init: ForInit, test: Option<Expr>, iter: Option<Expr>, body: Stat, nl: char, indent: nat): string
    decreases For(init, test, iter, body), 1
  {
    "for (" + ForInitText(init) + ";" + OptExprText(test) + ";" + OptExprText(iter) + ")" + [nl]
    + StatText(body, nl, indent)
  }

  function ElseText(elseS: Option<Stat>, nl: char, indent: nat): string
    decreases elseS, 0
  {
    if elseS.Some? then [nl] + "else " + StatText(elseS.value, nl, indent) else ""
  }

  function IfText(cond: Expr, thenS: Stat, elseS: Option<Stat>, nl: char, indent: nat): string
    decreases If(cond, thenS, elseS), 1
  {
    "if (" + ExprText(cond) + ")" + [nl] + StatText(thenS, nl, indent) + ElseText(elseS, nl, indent)
  }

  function ReturnText(value: Option<Expr>): string
  {
    "return" + (if value.Some? then " " + ExprText(value.value) else "") + ";"
  }

  function WhileText(cond: Expr, body: Stat, nl: char, indent: nat): string
    decreases While(cond, body), 1
  {
    "while (" + ExprText(cond) + ")" + [nl] + StatText(body, nl, indent)
  }

  /** break: a BREAK token prints `break;`, any other `continue;`. */
  function BreakText(token: TokenType): string
  {
    if token == BREAK then "break;" else "continue;"
  }

  /** decs_statement: the entry, a `;` after a variable declaration, and
      the newline. */
  function DeclText(d: Decl, nl: char, indent: nat): string
    decreases d, 3
  {
    match d
    case VarDecl(v) => VarDecText(v) + ";" + [nl]
    case FunDecl(f) => FunDecText(f, true, nl, indent) + [nl]
    case ClassDecl(c) => ClassDecText(c, nl, indent) + [nl]
    case StatDecl(s) => StatText(s, nl, indent) + [nl]
  }

  /** The first n entries of a top-level Declaration. */
  function ProgramPrefix(ast: seq<Decl>, n: nat, nl: char, indent: nat): string
    requires n <= |ast|
  {
    if n == 0 then "" else ProgramPrefix(ast, n - 1, nl, indent) + DeclText(ast[n - 1], nl, indent)
  }

  /** print: what the printer writes for a whole Declaration. */
  function ProgramText(ast: seq<Decl>, nl: char, indent: nat): string
  {
    ProgramPrefix(ast, |ast|, nl, indent)
  }

  // ---------------------------------------------------------------------
  // Properties of the printed form.

  /** A list written with a separator between consecutive items, defined
      from the front: the reference the printing loops are compared with. */
  function Join(items: seq<string>, sep: string): string
  {
    if |items| == 0 then ""
    else if |items| == 1 then items[0]
    else items[0] + sep + Join(items[1..], sep)
  }

  lemma {:induction false} JoinSnoc(items: seq<string>, x: string, sep: string)
    requires items != []
    ensures Join(items + [x], sep) == Join(items, sep) + sep + x
    decreases |items|
  {
    if |items| == 1 {
      assert items + [x] == [items[0], x];
      assert [items[0], x][1..] == [x];
    } else {
      assert (items + [x])[1..] == items[1..] + [x];
      JoinSnoc(items[1..], x, sep);
    }
  }

  /** The parameter loop of funDec writes the parameters separated by
      ", ", with no separator after the last: after n of them it has
      written the first n joined, and a separator if more follow. */
  lemma {:induction false} ParamsPrefixJoins(params: seq<string>, n: nat)
    requires n <= |params|
    ensures ParamsPrefix(params, n) == Join(params[..n], ", ") + (if 0 < n < |params| then ", " else "")
  {
    if n > 1 {
      ParamsPrefixJoins(params, n - 1);
      assert params[..n] == params[..n - 1] + [params[n - 1]];
      JoinSnoc(params[..n - 1], params[n - 1], ", ");
    } else if n == 1 {
      assert params[..1] == [params[0]];
    }
  }

  lemma ParamsJoined(params: seq<string>)
    ensures ParamsPrefix(params, |params|) == Join(params, ", ")
  {
    ParamsPrefixJoins(params, |params|);
    assert params[..|params|] == params;
  }

  /** The printed arguments, one string per argument. */
  function ArgTexts(args: seq<Expr>): (r: seq<string>)
    ensures |r| == |args| && forall i :: 0 <= i < |args| ==> r[i] == ExprText(args[i])
  {
    seq(|args|, i requires 0 <= i < |args| => ExprText(args[i]))
  }

  lemma {:induction false} ArgsPrefixAsParams(args: seq<Expr>, n: nat)
    requires n <= |args|
    ensures ArgsPrefix(args, n) == ParamsPrefix(ArgTexts(args), n)
  {
    if n > 0 {
      ArgsPrefixAsParams(args, n - 1);
    }
  }

  /** args writes the printed arguments in parentheses, separated by ", ". */
  lemma ArgsJoined(args: seq<Expr>)
    ensures ArgsText(args) == "(" + Join(ArgTexts(args), ", ") + ")"
  {
    ArgsPrefixAsParams(args, |args|);
    ParamsJoined(ArgTexts(args));
  }

  /** Every top-level entry and every block entry ends with the newline
      character, and so does a non-empty program. */
  lemma DeclEndsWithNewline(d: Decl, nl: char, indent: nat)
    ensures |DeclText(d, nl, indent)| > 0 && DeclText(d, nl, indent)[|DeclText(d, nl, indent)| - 1] == nl
  {
  }

  lemma ProgramEndsWithNewline(ast: seq<Decl>, nl: char, indent: nat)
    requires ast != []
    ensures |ProgramText(ast, nl, indent)| > 0
    ensures ProgramText(ast, nl, indent)[|ProgramText(ast, nl, indent)| - 1] == nl
  {
    DeclEndsWithNewline(ast[|ast| - 1], nl, indent);
  }

  /** The program printed is the entries printed one after the other. */
  lemma {:induction false} ProgramAppend(ast: seq<Decl>, d: Decl, nl: char, indent: nat)
    ensures ProgramText(ast + [d], nl, indent) == ProgramText(ast, nl, indent) + DeclText(d, nl, indent)
  {
    ProgramPrefixStable(ast, [d], |ast|, nl, indent);
    assert (ast + [d])[|ast|] == d;
  }

  lemma {:induction false} ProgramPrefixStable(ast: seq<Decl>, more: seq<Decl>, n: nat, nl: char, indent: nat)
    requires n <= |ast|
    ensures ProgramPrefix(ast + more, n, nl, indent) == ProgramPrefix(ast, n, nl, indent)
  {
    if n > 0 {
      ProgramPrefixStable(ast, more, n - 1, nl, indent);
      assert (ast + more)[n - 1] == ast[n - 1];
    }
  }

  // Fully parenthesised output: in an arithmetic expression every binary
  // node contributes exactly one '(' and one ')'.

  function Occurrences(s: string, c: char): nat
  {
    if s == [] then 0 else Occurrences(s[..|s| - 1], c) + (if s[|s| - 1] == c then 1 else 0)
  }

  lemma {:induction false} OccurrencesAppend(a: string, b: string, c: char)
    ensures Occurrences(a + b, c) == Occurrences(a, c) + Occurrences(b, c)
    decreases |b|
  {
    if b != [] {
      assert (a + b)[..|a + b| - 1] == a + b[..|b| - 1];
      OccurrencesAppend(a, b[..|b| - 1], c);
    } else {
      assert a + b == a;
    }
  }

  lemma {:induction false} OccurrencesAbsent(s: string, c: char)
    requires c !in s
    ensures Occurrences(s, c) == 0
    decreases |s|
  {
    if s != [] {
      assert s[..|s| - 1] + [s[|s| - 1]] == s;
      OccurrencesAbsent(s[..|s| - 1], c);
    }
  }

  /** Literals, groupings, unary and binary operators, with number texts
      that hold no parenthesis. */
  predicate Arithmetic(e: Expr)
  {
    match e
    case Group(inner) => Arithmetic(inner)
    case Unary(op, operand) => Arithmetic(operand)
    case Binary(op, left, right) => Arithmetic(left) && Arithmetic(right)
    case Number(printed) => '(' !in printed && ')' !in printed
    case Boolean(_) => true
    case Nil => true
    case _ => false
  }

  function BinaryNodes(e: Expr): nat
  {
    match e
    case Group(inner) => BinaryNodes(inner)
    case Unary(op, operand) => if op == BANG || op == MINUS then BinaryNodes(operand) else 0
    case Binary(op, left, right) => 1 + BinaryNodes(left) + BinaryNodes(right)
    case _ => 0
  }

  lemma NoParenInOperator(op: TokenType)
    ensures '(' !in BinaryOpText(op) && ')' !in BinaryOpText(op)
  {
  }

  lemma {:induction false} ParenthesesBalance(e: Expr, c: char)
    requires Arithmetic(e) && (c == '(' || c == ')')
    ensures Occurrences(ExprText(e), c) == BinaryNodes(e)
  {
    match e
    case Group(inner) => ParenthesesBalance(inner, c);
    case Unary(op, operand) =>
      if op == BANG || op == MINUS {
        ParenthesesBalance(operand, c);
        OccurrencesAppend([if op == BANG then '!' else '-'], ExprText(operand), c);
        assert UnaryText(op, operand) == [if op == BANG then '!' else '-'] + ExprText(operand);
        assert Occurrences([if op == BANG then '!' else '-'], c) == 0 by {
          OccurrencesAbsent([if op == BANG then '!' else '-'], c);
        }
      }
    case Binary(op, left, right) =>
      ParenthesesBalance(left, c);
      ParenthesesBalance(right, c);
      NoParenInOperator(op);
      OccurrencesAbsent(BinaryOpText(op), c);
      OccurrencesAppend("(", ExprText(left), c);
      OccurrencesAppend("(" + ExprText(left), BinaryOpText(op), c);
      OccurrencesAppend("(" + ExprText(left) + BinaryOpText(op), ExprText(right), c);
      OccurrencesAppend("(" + ExprText(left) + BinaryOpText(op) + ExprText(right), ")", c);
      assert Occurrences("(", c) + Occurrences(")", c) == 1 by {
        assert ("(")[..0] == [] && (")")[..0] == [];
      }
    case Number(printed) => OccurrencesAbsent(printed, c);
    case Boolean(truth) =>
      OccurrencesAbsent("true", c);
      OccurrencesAbsent("false", c);
    case Nil => OccurrencesAbsent("nil", c);
  }

  // Examples from the parser tests, printed with ' ' as newline.

  lemma BinaryExample()
    ensures ProgramText([StatDecl(ExprStat(Binary(ASTERIX, Number("2"), Group(Binary(PLUS, Number("3"), Number("4"))))))], ' ', 4)
            == "(2 * (3 + 4)); "
  {
    var sum := Binary(PLUS, Number("3"), Number("4"));
    assert ExprText(sum) == "(3 + 4)" by {
      assert BinaryOpText(PLUS) == " + ";
    }
    var e := Binary(ASTERIX, Number("2"), Group(sum));
    assert ExprText(e) == "(2 * (3 + 4))" by {
      assert BinaryOpText(ASTERIX) == " * ";
    }
    ProgramAppend([], StatDecl(ExprStat(e)), ' ', 4);
    assert [] + [StatDecl(ExprStat(e))] == [StatDecl(ExprStat(e))];
  }

  lemma UnaryExample()
    ensures ProgramText([StatDecl(ExprStat(Unary(MINUS, Unary(BANG, Unary(MINUS, Number("2"))))))], ' ', 4) == "-!-2; "
  {
    var e := Unary(MINUS, Unary(BANG, Unary(MINUS, Number("2"))));
    assert ExprText(Unary(MINUS, Number("2"))) == "-2";
    assert ExprText(Unary(BANG, Unary(MINUS, Number("2")))) == "!-2";
    assert ExprText(e) == "-!-2";
    ProgramAppend([], StatDecl(ExprStat(e)), ' ', 4);
    assert [] + [StatDecl(ExprStat(e))] == [StatDecl(ExprStat(e))];
  }

  lemma VarExample()
    ensures ProgramText([VarDecl(VarDec("x", Some(Number("1")))), VarDecl(VarDec("x", None))], ' ', 4) == "var x = 1; var x; "
  {
    var first := VarDecl(VarDec("x", Some(Number("1"))));
    var second := VarDecl(VarDec("x", None));
    assert DeclText(first, ' ', 4) == "var x = 1; ";
    assert DeclText(second, ' ', 4) == "var x; ";
    ProgramAppend([], first, ' ', 4);
    assert [] + [first] == [first];
    ProgramAppend([first], second, ' ', 4);
    assert [first] + [second] == [first, second];
  }

  lemma PrintExample()
    ensures ProgramText([StatDecl(Stat.Print(String("a")))], ' ', 4) == "print \"a\"; "
  {
    var d := StatDecl(Stat.Print(String("a")));
    assert DeclText(d, ' ', 4) == "print \"a\"; ";
    ProgramAppend([], d, ' ', 4);
    assert [] + [d] == [d];
  }

  // ---------------------------------------------------------------------
  // The printer object.

  // Appending piece after piece appends their concatenation.

  lemma Glue(o: string, a: string, b: string)
    ensures o + a + b == o + (a + b)
  {
  }

  lemma Glue3(o: string, a: string, b: string, c: string)
    ensures o + a + b + c == o + (a + b + c)
  {
  }

  lemma Glue4(o: string, a: string, b: string, c: string, d: string)
    ensures o + a + b + c + d == o + (a + b + c + d)
  {
  }

  lemma Glue5(o: string, a: string, b: string, c: string, d: string, e: string)
    ensures o + a + b + c + d + e == o + (a + b + c + d + e)
  {
  }

  lemma Glue6(o: string, a: string, b: string, c: string, d: string, e: string, f: string)
    ensures o + a + b + c + d + e + f == o + (a + b + c + d + e + f)
  {
  }

  lemma Glue8(o: string, a: string, b: string, c: string, d: string, e: string, f: string, g: string, h: string)
    ensures o + a + b + c + d + e + f + g + h == o + (a + b + c + d + e + f + g + h)
  {
  }

  lemma Glue9(o: string, a: string, b: string, c: string, d: string, e: string, f: string, g: string, h: string, k: string)
    ensures o + a + b + c + d + e + f + g + h + k == o + (a + b + c + d + e + f + g + h + k)
  {
  }

  class AstPrinter {
    var os: string
    const NL: char
    const indent: nat

    /** AST_Printer(os, nl, indent); the defaults are '\n' and 4. */
    constructor (os: string, nl: char, indent: nat)
      ensures this.os == os && NL == nl && this.indent == indent
    {
      this.os := os;
      NL := nl;
      this.indent := indent;
    }

    method Print(ast: seq<Decl>)
      modifies this
      ensures os == old(os) + ProgramText(ast, NL, indent)
    {
      Declaration(ast);
    }

    method Declaration(ast: seq<Decl>)
      modifies this
      ensures os == old(os) + ProgramText(ast, NL, indent)
    {
      var i := 0;
      while i < |ast|
        invariant 0 <= i <= |ast|
        invariant os == old(os) + ProgramPrefix(ast, i, NL, indent)
      {
        DecsStatement(ast[i]);
        Glue(old(os), ProgramPrefix(ast, i, NL, indent), DeclText(ast[i], NL, indent));
        i := i + 1;
      }
    }

    method DecsStatement(d: Decl)
      modifies this
      ensures os == old(os) + DeclText(d, NL, indent)
      decreases d, 3
    {
      match d {
        case VarDecl(v) =>
          VarDecMethod(v);
          os := os + ";";
          os := os + [NL];
          Glue3(old(os), VarDecText(v), ";", [NL]);
        case FunDecl(f) =>
          FunDecMethod(f, true);
          os := os + [NL];
          Glue(old(os), FunDecText(f, true, NL, indent), [NL]);
        case ClassDecl(c) =>
          ClassDecMethod(c);
          os := os + [NL];
          Glue(old(os), ClassDecText(c, NL, indent), [NL]);
        case StatDecl(s) =>
          Statement(s);
          os := os + [NL];
          Glue(old(os), StatText(s, NL, indent), [NL]);
      }
    }

    method VarDecMethod(v: VarDec)
      modifies this
      ensures os == old(os) + VarDecText(v)
    {
      os := os + "var ";
      os := os + v.name;
      ghost var head := os;
      if v.init.Some? {
        os := os + " = ";
        ExprMethod(v.init.value);
        Glue(head, " = ", ExprText(v.init.value));
      }
      Glue3(old(os), "var ", v.name, InitializerText(v.init));
    }

    method FunDecMethod(f: FunDec, isFunction: bool)
      modifies this
      ensures os == old(os) + FunDecText(f, isFunction, NL, indent)
      decreases f, 2
    {
      if isFunction {
        os := os + "fun ";
      }
      ghost var keyword := if isFunction then "fun " else "";
      os := os + f.name;
      os := os + "(";
      ghost var head := os;
      var i := 0;
      while i < |f.params|
        invariant 0 <= i <= |f.params|
        invariant os == head + ParamsPrefix(f.params, i)
      {
        ghost var sep := if i < |f.params| - 1 then ", " else "";
        os := os + f.params[i];
        if i < |f.params| - 1 {
          os := os + ", ";
        }
        Glue3(head, ParamsPrefix(f.params, i), f.params[i], sep);
        i := i + 1;
      }
      os := os + ") ";
      BlockMethod(f.body);
      Glue6(old(os), keyword, f.name, "(", ParamsPrefix(f.params, |f.params|), ") ", BlockText(f.body, NL, indent));
    }

    method ClassDecMethod(c: ClassDec)
      modifies this
      ensures os == old(os) + ClassDecText(c, NL, indent)
      decreases c, 2
    {
      os := os + "class ";
      os := os + c.name;
      SuperClause(c.super);
      os := os + " {";
      os := os + [NL];
      ghost var body := os;
      var i := 0;
      while i < |c.methods|
        invariant 0 <= i <= |c.methods|
        invariant os == body + MethodsPrefix(c.methods, i, NL, indent)
      {
        FunDecMethod(c.methods[i], false);
        os := os + [NL];
        Glue3(body, MethodsPrefix(c.methods, i, NL, indent), FunDecText(c.methods[i], false, NL, indent), [NL]);
        i := i + 1;
      }
      os := os + "}";
      os := os + [NL];
      Glue8(old(os), "class ", c.name, SuperText(c.super), " {", [NL],
            MethodsPrefix(c.methods, |c.methods|, NL, indent), "}", [NL]);
    }

    /** The superclass clause of classDec, written only when there is a
        superclass. */
    method SuperClause(super: string)
      modifies this
      ensures os == old(os) + SuperText(super)
    {
      if super != "" {
        os := os + " < ";
        os := os + super;
        Glue(old(os), " < ", super);
      }
    }

    method Statement(s: Stat)
      modifies this
      ensures os == old(os) + StatText(s, NL, indent)
      decreases s, 2
    {
      match s
      case Print(e) => PrintStatement(e);
      case For(init, test, iter, body) => ForStat(init, test, iter, body);
      case If(cond, thenS, elseS) => IfStat(cond, thenS, elseS);
      case Return(value) => ReturnStat(value);
      case While(cond, body) => WhileStat(cond, body);
      case Break(token) => BreakStat(token);
      case Block(entries) => BlockMethod(entries);
      case ExprStat(e) => ExprStatement(e);
    }

    method BlockMethod(entries: seq<Decl>)
      modifies this
      ensures os == old(os) + BlockText(entries, NL, indent)
      decreases entries, 1
    {
      os := os + "{" + [NL];
      ghost var head := os;
      var i := 0;
      while i < |entries|
        invariant 0 <= i <= |entries|
        invariant os == head + BlockPrefix(entries, i, NL, indent)
      {
        os := os + Spaces(indent);
        DecsStatement(entries[i]);
        Glue3(head, BlockPrefix(entries, i, NL, indent), Spaces(indent), DeclText(entries[i], NL, indent));
        i := i + 1;
      }
      os := os + "}";
      Glue3(old(os), "{" + [NL], BlockPrefix(entries, |entries|, NL, indent), "}");
    }

    method IfStat(cond: Expr, thenS: Stat, elseS: Option<Stat>)
      modifies this
      ensures os == old(os) + IfText(cond, thenS, elseS, NL, indent)
      decreases If(cond, thenS, elseS), 1
    {
      os := os + "if (";
      ExprMethod(cond);
      os := os + ")";
      os := os + [NL];
      Statement(thenS);
      ghost var head := os;
      if elseS.Some? {
        os := os + [NL];
        os := os + "else ";
        Statement(elseS.value);
        Glue3(head, [NL], "else ", StatText(elseS.value, NL, indent));
      }
      Glue6(old(os), "if (", ExprText(cond), ")", [NL], StatText(thenS, NL, indent), ElseText(elseS, NL, indent));
    }

    method ForStat(init: ForInit, test: Option<Expr>, iter: Option<Expr>, body: Stat)
      modifies this
      ensures os == old(os) + ForText(init, test, iter, body, NL, indent)
      decreases For(init, test, iter, body), 1
    {
      os := os + "for (";
      ForInitMethod(init);
      os := os + ";";
      OptExprMethod(test);
      os := os + ";";
      OptExprMethod(iter);
      os := os + ")";
      os := os + [NL];
      Statement(body);
      Glue9(old(os), "for (", ForInitText(init), ";", OptExprText(test), ";", OptExprText(iter), ")", [NL],
            StatText(body, NL, indent));
    }

    /** The initialiser clause of forStat: a variable, an expression or
        nothing. */
    method ForInitMethod(init: ForInit)
      modifies this
      ensures os == old(os) + ForInitText(init)
      decreases init, 0
    {
      match init
      case NoInit =>
      case InitVar(v) => VarDecMethod(v);
      case InitExpr(e) => ExprMethod(e);
    }

    /** An optional clause of forStat. */
    method OptExprMethod(e: Option<Expr>)
      modifies this
      ensures os == old(os) + OptExprText(e)
      decreases e, 0
    {
      if e.Some? {
        ExprMethod(e.value);
      }
    }

    method WhileStat(cond: Expr, body: Stat)
      modifies this
      ensures os == old(os) + WhileText(cond, body, NL, indent)
      decreases While(cond, body), 1
    {
      os := os + "while (";
      ExprMethod(cond);
      os := os + ")";
      os := os + [NL];
      Statement(body);
      Glue5(old(os), "while (", ExprText(cond), ")", [NL], StatText(body, NL, indent));
    }

    method ReturnStat(value: Option<Expr>)
      modifies this
      ensures os == old(os) + ReturnText(value)
    {
      os := os + "return";
      ghost var head := os;
      if value.Some? {
        os := os + " ";
        ExprMethod(value.value);
        Glue(head, " ", ExprText(value.value));
      }
      ghost var rest := if value.Some? then " " + ExprText(value.value) else "";
      os := os + ";";
      Glue3(old(os), "return", rest, ";");
    }

    method BreakStat(token: TokenType)
      modifies this
      ensures os == old(os) + BreakText(token)
    {
      if token == BREAK {
        os := os + "break;";
        return;
      }
      os := os + "continue;";
    }

    method PrintStatement(e: Expr)
      modifies this
      ensures os == old(os) + PrintText(e)
    {
      os := os + "print ";
      ExprMethod(e);
      os := os + ";";
      Glue3(old(os), "print ", ExprText(e), ";");
    }

    method ExprStatement(e: Expr)
      modifies this
      ensures os == old(os) + StatText(ExprStat(e), NL, indent)
    {
      ExprMethod(e);
      os := os + ";";
      Glue(old(os), ExprText(e), ";");
    }

    method ExprMethod(e: Expr)
      modifies this
      ensures os == old(os) + ExprText(e)
      decreases e, 1
    {
      match e
      case Group(inner) => ExprMethod(inner);
      case Unary(op, operand) => UnaryMethod(op, operand);
      case Binary(op, left, right) => BinaryMethod(op, left, right);
      case Identifier(name) => os := os + name;
      case Number(printed) => os := os + printed;
      case String(value) => os := os + ("\"" + value + "\"");
      case Boolean(truth) =>
        if truth {
          os := os + "true";
        } else {
          os := os + "false";
        }
      case Assign(target, rvalue) => AssignMethod(target, rvalue);
      case Call(callee, args) => CallMethod(callee, args);
      case Dot(left, id, tail) => DotMethod(left, id, tail);
      case This(token, id, hasArgs, args) => ThisMethod(token, id, hasArgs, args);
      case Nil => os := os + "nil";
      case Other =>
    }

    method BinaryMethod(op: TokenType, left: Expr, right: Expr)
      modifies this
      ensures os == old(os) + BinaryText(op, left, right)
      decreases Binary(op, left, right), 0
    {
      os := os + "(";
      ExprMethod(left);
      os := os + BinaryOpText(op);
      ExprMethod(right);
      os := os + ")";
      Glue5(old(os), "(", ExprText(left), BinaryOpText(op), ExprText(right), ")");
    }

    method AssignMethod(target: Expr, rvalue: Expr)
      modifies this
      ensures os == old(os) + AssignText(target, rvalue)
      decreases Assign(target, rvalue), 0
    {
      ExprMethod(target);
      os := os + " = ";
      ExprMethod(rvalue);
      Glue3(old(os), ExprText(target), " = ", ExprText(rvalue));
    }

    method CallMethod(callee: Expr, args: seq<Expr>)
      modifies this
      ensures os == old(os) + CallText(callee, args)
      decreases Call(callee, args), 0
    {
      ExprMethod(callee);
      Args(args);
      Glue(old(os), ExprText(callee), ArgsText(args));
    }

    method DotMethod(left: Expr, id: string, tail: DotTail)
      modifies this
      ensures os == old(os) + DotText(left, id, tail)
      decreases Dot(left, id, tail), 0
    {
      ExprMethod(left);
      os := os + ".";
      os := os + id;
      ghost var head := os;
      match tail {
        case Get =>
        case Set(value) =>
          os := os + " = ";
          ExprMethod(value);
          Glue(head, " = ", ExprText(value));
        case Invoke(args) =>
          Args(args);
      }
      Glue4(old(os), ExprText(left), ".", id, DotTailText(tail));
    }

    method UnaryMethod(op: TokenType, operand: Expr)
      modifies this
      ensures os == old(os) + UnaryText(op, operand)
      decreases Unary(op, operand), 0
    {
      var sign: string;
      if op == BANG {
        sign := "!";
      } else if op == MINUS {
        sign := "-";
      } else {
        return;
      }
      os := os + sign;
      ExprMethod(operand);
      Glue(old(os), sign, ExprText(operand));
    }

    method ThisMethod(token: TokenType, id: string, hasArgs: bool, args: seq<Expr>)
      modifies this
      ensures os == old(os) + ThisText(token, id, hasArgs, args)
      decreases This(token, id, hasArgs, args), 0
    {
      if token == THIS {
        os := os + "this";
        return;
      }
      os := os + "super.";
      os := os + id;
      if hasArgs {
        Args(args);
        Glue3(old(os), "super.", id, ArgsText(args));
      }
    }

    method Args(args: seq<Expr>)
      modifies this
      ensures os == old(os) + ArgsText(args)
      decreases args, 1
    {
      os := os + "(";
      ghost var head := os;
      var i := 0;
      while i < |args|
        invariant 0 <= i <= |args|
        invariant os == head + ArgsPrefix(args, i)
      {
        ghost var sep := if i < |args| - 1 then ", " else "";
        ExprMethod(args[i]);
        if i < |args| - 1 {
          os := os + ", ";
        }
        Glue3(head, ArgsPrefix(args, i), ExprText(args[i]), sep);
        i := i + 1;
      }
      os := os + ")";
      Glue3(old(os), "(", ArgsPrefix(args, |args|), ")");
    }
  }
}
