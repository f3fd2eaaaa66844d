// The parser of src/parser.cc: a cursor over the scanner's tokens with
// panic-mode error recovery, and the part of the grammar that file
// implements (a declaration is a keyword or an expression statement whose
// expression is a single number).
//
// The scanner is modelled by the sequence of tokens it returns, in order;
// once that sequence is used up it keeps returning an EOFS token, as the
// scanner does at the end of its input.
module Parser {
  import opened Scanner
  import opened Wrappers
  import Errors

  // ---------------------------------------------------------------------
  // Syntax trees built by this parser.

  /** An Expr whose Primary holds a Number; the number's value is strtod
      of this text (number values are not modelled). */
  datatype Expr = Expr(number: string)

  /** A Statement; `stat` is null for the statement keywords this parser
      recognises but does not parse further. */
  datatype Statement = Statement(stat: Option<Expr>)

  datatype Declaration = Declaration(stats: seq<Statement>)

  // ---------------------------------------------------------------------
  // The token stream.

  function EndToken(ts: seq<Token>): (t: Token)
    ensures t.ttype == EOFS
  {
    Token(EOFS, "", if ts == [] then 1 else ts[|ts| - 1].line)
  }

  /** What the i-th call of scanToken returns. */
  function TokenAt(ts: seq<Token>, i: nat): Token
  {
    if i < |ts| then ts[i] else EndToken(ts)
  }

  // ---------------------------------------------------------------------
  // The parser's state and its operations, as functions.

  /** One message written by errorAt: the token it is reported at and the
      message. What reaches the error stream is Errors.TokenError of the two. */
  datatype Diagnostic = Diagnostic(token: Token, message: string)

  /** The error flags and the messages written so far, in order. */
  datatype ErrorLog = ErrorLog(panicMode: bool, hadError: bool, written: seq<Diagnostic>)

  const Calm := ErrorLog(false, false, [])

  /** The text the messages put on the error stream. */
  function Rendered(written: seq<Diagnostic>): string
  {
    if written == [] then ""
    else
      var d := written[|written| - 1];
      Rendered(written[..|written| - 1]) + Errors.TokenError(d.token, d.message)
  }

  /** errorAt's panic mode: while panicking nothing is written; otherwise
      the message is written and both flags are set. */
  function Report(e: ErrorLog, d: Diagnostic): (r: ErrorLog)
    ensures e.panicMode ==> r == e
    ensures !e.panicMode ==> r == ErrorLog(true, true, e.written + [d])
  {
    if e.panicMode then e else ErrorLog(true, true, e.written + [d])
  }

  /** The parser's reports are the error module's: on the text of the
      stream, Report is Errors.Report of the message's text. */
  lemma ReportAgrees(e: ErrorLog, d: Diagnostic)
    ensures var r := Report(e, d);
      Errors.ErrorState(r.panicMode, r.hadError, Rendered(r.written))
        == Errors.Report(Errors.ErrorState(e.panicMode, e.hadError, Rendered(e.written)), Errors.TokenError(d.token, d.message))
  {
    if !e.panicMode {
      assert (e.written + [d])[..|e.written|] == e.written;
    }
  }

  /** How many tokens have been read, the current and previous token, and
      the error flags with the messages written. */
  datatype PState = PState(pos: nat, current: Token, previous: Token, err: ErrorLog)

  /** A result of a grammar rule together with the state it leaves. */
  datatype Parsed<T> = Parsed(state: PState, node: T)

  /** A measure of the input left: tokens not yet read, plus one while
      the current token is not EOFS. */
  function Remaining(ts: seq<Token>, st: PState): nat
    requires st.pos <= |ts|
  {
    |ts| - st.pos + (if st.current.ttype == EOFS then 0 else 1)
  }

  function AfterErrorAt(st: PState, token: Token, message: string): (r: PState)
    ensures r.pos == st.pos && r.current == st.current && r.previous == st.previous
    ensures r.err == Report(st.err, Diagnostic(token, message))
  {
    st.(err := Report(st.err, Diagnostic(token, message)))
  }

  /** The `for (;;)` loop of advance: read a token; an error token is
      reported with its own text as the message and skipped. */
  function ScanLoop(ts: seq<Token>, st: PState): (r: PState)
    requires st.pos <= |ts|
    ensures st.pos <= r.pos <= |ts| && r.previous == st.previous
    ensures r.current.ttype != ERROR
    ensures st.pos < |ts| ==> st.pos < r.pos
    ensures st.pos == |ts| ==> r.pos == |ts| && r.current == EndToken(ts)
    decreases |ts| - st.pos
  {
    var t := TokenAt(ts, st.pos);
    var scanned := st.(pos := if st.pos < |ts| then st.pos + 1 else st.pos, current := t);
    if t.ttype != ERROR then scanned
    else ScanLoop(ts, AfterErrorAt(scanned, t, t.text))
  }

  /** advance: the current token becomes the previous one, then the next
      token that is not an error is read. */
  function AfterAdvance(ts: seq<Token>, st: PState): (r: PState)
    requires st.pos <= |ts|
    ensures r.pos <= |ts| && r.previous == st.current && r.current.ttype != ERROR
    ensures Remaining(ts, r) <= Remaining(ts, st)
    ensures st.current.ttype != EOFS ==> Remaining(ts, r) < Remaining(ts, st)
  {
    ScanLoop(ts, st.(previous := st.current))
  }

  /** match: advance exactly when the current token has the type. */
  function AfterMatch(ts: seq<Token>, st: PState, t: TokenType): (r: Parsed<bool>)
    requires st.pos <= |ts|
    ensures r.node <==> st.current.ttype == t
    ensures r.state == if r.node then AfterAdvance(ts, st) else st
  {
    if st.current.ttype != t then Parsed(st, false) else Parsed(AfterAdvance(ts, st), true)
  }

  /** consume: advance past a token of the type, or report the message at
      the current token and stay. */
  function AfterConsume(ts: seq<Token>, st: PState, t: TokenType, message: string): (r: PState)
    requires st.pos <= |ts|
    ensures r.pos <= |ts| && Remaining(ts, r) <= Remaining(ts, st)
    ensures st.current.ttype == t ==> r == AfterAdvance(ts, st)
    ensures st.current.ttype != t ==> r == AfterErrorAt(st, st.current, message)
  {
    if st.current.ttype == t then AfterAdvance(ts, st) else AfterErrorAt(st, st.current, message)
  }

  /** The token types synchronize stops in front of. */
  predicate StartsDeclaration(t: TokenType)
  {
    t == CLASS || t == FUN || t == VAR || t == FOR || t == IF || t == WHILE || t == PRINT || t == RETURN
  }

  /** Where synchronize may stop: at the end, after a `;`, or in front of
      a keyword that starts a declaration or statement. */
  predicate SyncPoint(st: PState)
  {
    st.current.ttype == EOFS || st.previous.ttype == SEMICOLON || StartsDeclaration(st.current.ttype)
  }

  /** The loop of synchronize. */
  function SyncLoop(ts: seq<Token>, st: PState): (r: PState)
    requires st.pos <= |ts|
    ensures r.pos <= |ts| && Remaining(ts, r) <= Remaining(ts, st)
    decreases Remaining(ts, st)
  {
    if SyncPoint(st) then st else SyncLoop(ts, AfterAdvance(ts, st))
  }

  /** synchronize: leave panic mode, then skip to a synchronisation point. */
  function AfterSynchronize(ts: seq<Token>, st: PState): (r: PState)
    requires st.pos <= |ts|
    ensures r.pos <= |ts| && Remaining(ts, r) <= Remaining(ts, st)
  {
    SyncLoop(ts, st.(err := st.err.(panicMode := false)))
  }

  const ExpectingNumber := "expecting number"
  const ExpectSemicolon := "Expect ';' after expression."

  /** number as written: consume a NUMBER token, or report one missing
      without moving; the value comes from the previous token either way. */
  function AfterNumberAsWritten(ts: seq<Token>, st: PState): (r: Parsed<Expr>)
    requires st.pos <= |ts|
    ensures r.state.pos <= |ts| && Remaining(ts, r.state) <= Remaining(ts, st)
  {
    var s := AfterConsume(ts, st, NUMBER, ExpectingNumber);
    Parsed(s, Expr(s.previous.text))
  }

  /** number, corrected: always step over the current token, and report
      it when it is not a NUMBER. */
  function AfterNumber(ts: seq<Token>, st: PState): (r: Parsed<Expr>)
    requires st.pos <= |ts|
    ensures r.state.pos <= |ts| && Remaining(ts, r.state) <= Remaining(ts, st)
    ensures st.current.ttype != EOFS ==> Remaining(ts, r.state) < Remaining(ts, st)
  {
    var s := AfterAdvance(ts, st);
    var s' := if s.previous.ttype == NUMBER then s else AfterErrorAt(s, s.previous, ExpectingNumber);
    Parsed(s', Expr(s'.previous.text))
  }

  /** expr: a primary, which is a number, then `;`. */
  function AfterExpr(ts: seq<Token>, st: PState, corrected: bool): (r: Parsed<Expr>)
    requires st.pos <= |ts|
    ensures r.state.pos <= |ts| && Remaining(ts, r.state) <= Remaining(ts, st)
    ensures corrected && st.current.ttype != EOFS ==> Remaining(ts, r.state) < Remaining(ts, st)
  {
    var n := if corrected then AfterNumber(ts, st) else AfterNumberAsWritten(ts, st);
    Parsed(AfterConsume(ts, n.state, SEMICOLON, ExpectSemicolon), n.node)
  }

  /** The keywords statement recognises and steps over without parsing
      what follows. */
  predicate StatementKeyword(t: TokenType)
  {
    t == PRINT || t == FOR || t == IF || t == RETURN || t == WHILE || t == BREAK || t == CONTINUE || t == LEFT_BRACE
  }

  /** statement: a statement keyword gives a statement without content;
      anything else is an expression statement. */
  function AfterStatement(ts: seq<Token>, st: PState, corrected: bool): (r: Parsed<Statement>)
    requires st.pos <= |ts|
    ensures r.state.pos <= |ts| && Remaining(ts, r.state) <= Remaining(ts, st)
    ensures corrected && st.current.ttype != EOFS ==> Remaining(ts, r.state) < Remaining(ts, st)
  {
    if StatementKeyword(st.current.ttype) then Parsed(AfterAdvance(ts, st), Statement(None))
    else
      var e := AfterExpr(ts, st, corrected);
      Parsed(e.state, Statement(Some(e.node)))
  }

  /** declaration: `class`, `fun` and `var` are stepped over and add
      nothing; anything else adds one statement. Panic mode ends with
      synchronize. */
  function AfterDeclaration(ts: seq<Token>, st: PState, corrected: bool): (r: Parsed<seq<Statement>>)
    requires st.pos <= |ts|
    ensures r.state.pos <= |ts| && Remaining(ts, r.state) <= Remaining(ts, st)
    ensures corrected && st.current.ttype != EOFS ==> Remaining(ts, r.state) < Remaining(ts, st)
  {
    var d :=
      if st.current.ttype == CLASS || st.current.ttype == FUN || st.current.ttype == VAR then
        Parsed(AfterAdvance(ts, st), [])
      else
        var s := AfterStatement(ts, st, corrected);
        Parsed(s.state, [s.node]);
    if d.state.err.panicMode then Parsed(AfterSynchronize(ts, d.state), d.node) else d
  }

  /** The loop of parse with the corrected number rule: declarations until
      EOFS is matched. Every declaration reads at least one token, so the
      loop ends. */
  function ParseLoop(ts: seq<Token>, st: PState, stats: seq<Statement>): (r: Parsed<Declaration>)
    requires st.pos <= |ts|
    ensures r.state.previous.ttype == EOFS
    decreases Remaining(ts, st)
  {
    var m := AfterMatch(ts, st, EOFS);
    if m.node then Parsed(m.state, Declaration(stats))
    else
      assert st.current.ttype != EOFS;
      var d := AfterDeclaration(ts, st, true);
      assert Remaining(ts, d.state) < Remaining(ts, st);
      ParseLoop(ts, d.state, stats + d.node)
  }

  /** parse: read the first token, then the declarations. */
  function AfterParse(ts: seq<Token>, st: PState): (r: Parsed<Declaration>)
    requires st.pos <= |ts|
    ensures r.state.previous.ttype == EOFS
  {
    ParseLoop(ts, AfterAdvance(ts, st), [])
  }

  /** The loop of parse as written, with number consuming only NUMBER
      tokens; None when `fuel` iterations do not reach EOFS. */
  function ParseLoopAsWritten(ts: seq<Token>, st: PState, stats: seq<Statement>, fuel: nat): (r: Option<Parsed<Declaration>>)
    requires st.pos <= |ts|
    ensures r.Some? ==> r.value.state.previous.ttype == EOFS
    decreases fuel
  {
    var m := AfterMatch(ts, st, EOFS);
    if m.node then Some(Parsed(m.state, Declaration(stats)))
    else if fuel == 0 then None
    else
      var d := AfterDeclaration(ts, st, false);
      ParseLoopAsWritten(ts, d.state, stats + d.node, fuel - 1)
  }

  function ParseAsWritten(ts: seq<Token>, st: PState, fuel: nat): Option<Parsed<Declaration>>
    requires st.pos <= |ts|
  {
    ParseLoopAsWritten(ts, AfterAdvance(ts, st), [], fuel)
  }

  // ---------------------------------------------------------------------
  // Properties.

  /** Where advance's loop stops looking: the first index from i whose
      token is not an error token, or the end. */
  function NextNonError(ts: seq<Token>, i: nat): (j: nat)
    requires i <= |ts|
    ensures i <= j <= |ts| && (j < |ts| ==> ts[j].ttype != ERROR)
    ensures forall k :: i <= k < j ==> ts[k].ttype == ERROR
    decreases |ts| - i
  {
    if i == |ts| || ts[i].ttype != ERROR then i else NextNonError(ts, i + 1)
  }

  /** advance's loop reads up to and including the first token that is
      not an error token, which becomes current. Of the error tokens it
      skips only the first is reported, with its own text as the message,
      and only when not already in panic mode. */
  lemma {:induction false} ScanLoopSkipsErrors(ts: seq<Token>, st: PState)
    requires st.pos <= |ts|
    ensures var j := NextNonError(ts, st.pos);
      ScanLoop(ts, st) == st.(pos := if j < |ts| then j + 1 else j, current := TokenAt(ts, j),
                              err := if j == st.pos then st.err else Report(st.err, Diagnostic(ts[st.pos], ts[st.pos].text)))
    decreases |ts| - st.pos
  {
    if st.pos < |ts| && ts[st.pos].ttype == ERROR {
      var t := ts[st.pos];
      var next := AfterErrorAt(st.(pos := st.pos + 1, current := t), t, t.text);
      ScanLoopSkipsErrors(ts, next);
      assert NextNonError(ts, next.pos) == NextNonError(ts, st.pos);
    }
  }

  /** synchronize ends at a synchronisation point, and reports nothing
      unless there are error tokens left to read. */
  lemma {:induction false} SyncLoopStops(ts: seq<Token>, st: PState)
    requires st.pos <= |ts|
    ensures SyncPoint(SyncLoop(ts, st))
    ensures (forall k :: st.pos <= k < |ts| ==> ts[k].ttype != ERROR) ==> SyncLoop(ts, st).err == st.err
    decreases Remaining(ts, st)
  {
    if !SyncPoint(st) {
      var a := AfterAdvance(ts, st);
      ScanLoopSkipsErrors(ts, st.(previous := st.current));
      SyncLoopStops(ts, a);
    }
  }

  /** One turn of advance's loop over an error token. */
  lemma ScanLoopErrorStep(ts: seq<Token>, st: PState)
    requires st.pos < |ts| && ts[st.pos].ttype == ERROR
    ensures var t := ts[st.pos];
      ScanLoop(ts, st) == ScanLoop(ts, AfterErrorAt(st.(pos := st.pos + 1, current := t), t, t.text))
  {
  }

  /** advance over a token that is not an error token, and at the end. */
  lemma AdvanceStep(ts: seq<Token>, st: PState)
    requires st.pos <= |ts|
    ensures st.pos < |ts| && ts[st.pos].ttype != ERROR ==>
              AfterAdvance(ts, st) == PState(st.pos + 1, ts[st.pos], st.current, st.err)
    ensures st.pos == |ts| ==> AfterAdvance(ts, st) == PState(st.pos, EndToken(ts), st.current, st.err)
  {
    ScanLoopSkipsErrors(ts, st.(previous := st.current));
  }

  /** The grammar this parser accepts: `NUMBER ;` pairs up to EOFS. */
  predicate Program(ts: seq<Token>, i: nat)
    decreases |ts| - i
  {
    i < |ts| &&
    ((ts[i].ttype == EOFS && i == |ts| - 1) ||
     (i + 2 < |ts| && ts[i].ttype == NUMBER && ts[i + 1].ttype == SEMICOLON && Program(ts, i + 2)))
  }

  /** The statements of such a program from index i. */
  function Numbers(ts: seq<Token>, i: nat): seq<Statement>
    requires Program(ts, i)
    decreases |ts| - i
  {
    if ts[i].ttype == EOFS then [] else [Statement(Some(Expr(ts[i].text)))] + Numbers(ts, i + 2)
  }

  /** The declaration `NUMBER ;` reads both tokens and the next one,
      reports nothing and gives one expression statement. */
  lemma NumberStatement(ts: seq<Token>, st: PState)
    requires st.pos + 1 < |ts| && st.pos >= 1
    requires st.current.ttype == NUMBER && ts[st.pos].ttype == SEMICOLON && ts[st.pos + 1].ttype != ERROR
    requires !st.err.panicMode
    ensures AfterDeclaration(ts, st, true)
              == Parsed(PState(st.pos + 2, ts[st.pos + 1], ts[st.pos], st.err), [Statement(Some(Expr(st.current.text)))])
  {
    AdvanceStep(ts, st);
    var s2 := PState(st.pos + 1, ts[st.pos], st.current, st.err);
    assert AfterNumber(ts, st) == Parsed(s2, Expr(st.current.text));
    AdvanceStep(ts, s2);
  }

  /** A program of the accepted grammar parses without any report into
      one expression statement per number, in order. */
  lemma {:induction false} ParsesProgram(ts: seq<Token>, st: PState, stats: seq<Statement>)
    requires st.pos >= 1 && Program(ts, st.pos - 1) && st.current == ts[st.pos - 1]
    requires !st.err.panicMode
    ensures var r := ParseLoop(ts, st, stats);
      r.node == Declaration(stats + Numbers(ts, st.pos - 1)) && r.state.err == st.err
    decreases |ts| - st.pos
  {
    var i := st.pos - 1;
    if ts[i].ttype == EOFS {
      ParseLoopEnds(ts, st, stats);
      assert stats + Numbers(ts, i) == stats;
    } else {
      var s := [Statement(Some(Expr(st.current.text)))];
      var next := PState(st.pos + 2, ts[st.pos + 1], ts[st.pos], st.err);
      ParseLoopContinues(ts, st, stats, next, s);
      ParsesProgram(ts, next, stats + s);
      assert stats + s + Numbers(ts, i + 2) == stats + Numbers(ts, i);
    }
  }

  /** The EOFS step of ParsesProgram: the loop ends and reports nothing. */
  lemma ParseLoopEnds(ts: seq<Token>, st: PState, stats: seq<Statement>)
    requires st.pos == |ts| && st.current.ttype == EOFS
    ensures var r := ParseLoop(ts, st, stats);
      r.node == Declaration(stats) && r.state.err == st.err
  {
    AdvanceStep(ts, st);
  }

  /** The `NUMBER ;` step of ParsesProgram: the loop goes on after the
      statement. */
  lemma ParseLoopContinues(ts: seq<Token>, st: PState, stats: seq<Statement>, next: PState, s: seq<Statement>)
    requires st.pos + 1 < |ts| && st.pos >= 1
    requires st.current.ttype == NUMBER && ts[st.pos].ttype == SEMICOLON && ts[st.pos + 1].ttype != ERROR
    requires !st.err.panicMode
    requires next == PState(st.pos + 2, ts[st.pos + 1], ts[st.pos], st.err) && s == [Statement(Some(Expr(st.current.text)))]
    ensures ParseLoop(ts, st, stats) == ParseLoop(ts, next, stats + s)
  {
    NumberStatement(ts, st);
  }

  /** parse from the start of a program. */
  lemma ParsesWholeProgram(ts: seq<Token>, initial: Token)
    requires Program(ts, 0)
    ensures var r := AfterParse(ts, PState(0, initial, initial, Calm));
      r.node == Declaration(Numbers(ts, 0)) && r.state.err == Calm
  {
    var st := PState(0, initial, initial, Calm);
    AdvanceStep(ts, st);
    ParsesProgram(ts, PState(1, ts[0], initial, st.err), []);
    assert [] + Numbers(ts, 0) == Numbers(ts, 0);
  }

  // ---------------------------------------------------------------------
  // The input `;)` makes parse as written loop for ever.

  const LoopTokens: seq<Token> := [Token(SEMICOLON, ";", 1), Token(RIGHT_PAREN, ")", 1), Token(EOFS, "", 1)]

  /** The state parse reaches on `;)` after its first declaration, and
      returns to after every later one. */
  predicate Stuck(st: PState)
  {
    st.pos == 2 && st.current == Token(RIGHT_PAREN, ")", 1) && st.previous.ttype == SEMICOLON && !st.err.panicMode
  }

  /** A declaration from the stuck state reports ")" as not a number,
      fails to find `;`, and synchronize stops at once after the `;`
      that is still the previous token: nothing is read. */
  lemma StuckDeclaration(st: PState)
    requires Stuck(st)
    ensures Stuck(AfterDeclaration(LoopTokens, st, false).state)
  {
  }

  lemma {:induction false} StuckForever(st: PState, stats: seq<Statement>, fuel: nat)
    requires Stuck(st)
    ensures ParseLoopAsWritten(LoopTokens, st, stats, fuel) == None
    decreases fuel
  {
    if fuel > 0 {
      var d := AfterDeclaration(LoopTokens, st, false);
      StuckDeclaration(st);
      StuckForever(d.state, stats + d.node, fuel - 1);
    }
  }

  /** Parse as written does not finish on `;)`, however many iterations
      it is given, whatever the initial token. */
  lemma ParseAsWrittenLoops(initial: Token, fuel: nat)
    ensures ParseAsWritten(LoopTokens, PState(0, initial, initial, Calm), fuel) == None
  {
    var st := PState(0, initial, initial, Calm);
    var a := AfterAdvance(LoopTokens, st);
    assert a.current == LoopTokens[0] && a.pos == 1;
    if fuel > 0 {
      var d := AfterDeclaration(LoopTokens, a, false);
      assert Stuck(d.state);
      StuckForever(d.state, [] + d.node, fuel - 1);
    }
  }

  /** The corrected parse of `;)` ends, having reported `;` and then `)`
      as not being numbers. */
  lemma ParseEndsOnLoopTokens(initial: Token)
    ensures var r := AfterParse(LoopTokens, PState(0, initial, initial, Calm));
      && r.state.previous.ttype == EOFS && r.state.err.hadError
      && r.state.err.written == [Diagnostic(LoopTokens[0], ExpectingNumber), Diagnostic(LoopTokens[1], ExpectingNumber)]
  {
    var ts := LoopTokens;
    var s0 := PState(0, initial, initial, Calm);
    AdvanceStep(ts, s0);
    var s1 := PState(1, ts[0], initial, s0.err);
    AdvanceStep(ts, s1);
    var out1 := [Diagnostic(ts[0], ExpectingNumber)];
    var s2 := PState(2, ts[1], ts[0], ErrorLog(true, true, out1));
    assert AfterExpr(ts, s1, true).state == s2;
    var s2' := s2.(err := ErrorLog(false, true, out1));
    assert AfterDeclaration(ts, s1, true).state == s2';
    AdvanceStep(ts, s2');
    var out2 := out1 + [Diagnostic(ts[1], ExpectingNumber)];
    var s3 := PState(3, ts[2], ts[1], ErrorLog(true, true, out2));
    assert AfterExpr(ts, s2', true).state == s3;
    var s3' := s3.(err := ErrorLog(false, true, out2));
    assert AfterDeclaration(ts, s2', true).state == s3';
    AdvanceStep(ts, s3');
    var stats1 := [] + AfterDeclaration(ts, s1, true).node;
    var stats2 := stats1 + AfterDeclaration(ts, s2', true).node;
    assert ParseLoop(ts, s1, []) == ParseLoop(ts, s2', stats1);
    assert ParseLoop(ts, s2', stats1) == ParseLoop(ts, s3', stats2);
    assert ParseLoop(ts, s3', stats2).state == AfterAdvance(ts, s3');
  }

  // ---------------------------------------------------------------------
  // The parser object.

  class Parser {
    const tokens: seq<Token>
    var pos: nat
    var current: Token
    var previous: Token
    var panicMode: bool
    var hadError: bool
    /** The error stream, as the messages written to it; their text is
        Rendered(written). */
    var written: seq<Diagnostic>

    ghost predicate Valid()
      reads this
    {
      pos <= |tokens|
    }

    ghost function State(): PState
      reads this
    {
      PState(pos, current, previous, ErrorLog(panicMode, hadError, written))
    }

    /** A parser over the scanner's tokens, none read yet. `initial` is
        what current and previous hold before the first advance (the
        source leaves them uninitialised). */
    constructor (tokens: seq<Token>, initial: Token)
      ensures Valid() && State() == PState(0, initial, initial, Calm)
      ensures this.tokens == tokens
    {
      this.tokens := tokens;
      pos := 0;
      current, previous := initial, initial;
      panicMode, hadError, written := false, false, [];
    }

    /** scanner.scanToken(). */
    method ScanToken() returns (t: Token)
      requires Valid()
      modifies this
      ensures Valid() && t == TokenAt(tokens, old(pos))
      ensures pos == if old(pos) < |tokens| then old(pos) + 1 else old(pos)
      ensures current == old(current) && previous == old(previous)
      ensures panicMode == old(panicMode) && hadError == old(hadError)
      ensures written == old(written)
    {
      t := TokenAt(tokens, pos);
      if pos < |tokens| {
        pos := pos + 1;
      }
    }

    method ErrorAt(token: Token, message: string)
      requires Valid()
      modifies this
      ensures Valid() && State() == AfterErrorAt(old(State()), token, message)
    {
      if panicMode {
        return;
      }
      panicMode := true;
      written := written + [Diagnostic(token, message)];
      hadError := true;
    }

    method ErrorAtCurrent(message: string)
      requires Valid()
      modifies this
      ensures Valid() && State() == AfterErrorAt(old(State()), old(current), message)
    {
      ErrorAt(current, message);
    }

    method Error(message: string)
      requires Valid()
      modifies this
      ensures Valid() && State() == AfterErrorAt(old(State()), old(previous), message)
    {
      ErrorAt(previous, message);
    }

    method Advance()
      requires Valid()
      modifies this
      ensures Valid() && State() == AfterAdvance(tokens, old(State()))
    {
      previous := current;
      ghost var target := ScanLoop(tokens, State());
      while true
        invariant Valid() && ScanLoop(tokens, State()) == target
        decreases |tokens| - pos
      {
        ghost var before := State();
        current := ScanToken();
        if current.ttype != ERROR {
          break;
        }
        ScanLoopErrorStep(tokens, before);
        ErrorAtCurrent(current.text);
      }
    }

    predicate Check(t: TokenType)
      reads this
    {
      current.ttype == t
    }

    method Consume(t: TokenType, message: string)
      requires Valid()
      modifies this
      ensures Valid() && State() == AfterConsume(tokens, old(State()), t, message)
    {
      if current.ttype == t {
        Advance();
        return;
      }
      ErrorAtCurrent(message);
    }

    method Match(t: TokenType) returns (matched: bool)
      requires Valid()
      modifies this
      ensures Valid() && Parsed(State(), matched) == AfterMatch(tokens, old(State()), t)
    {
      if !Check(t) {
        return false;
      }
      Advance();
      return true;
    }

    method Synchronize()
      requires Valid()
      modifies this
      ensures Valid() && State() == AfterSynchronize(tokens, old(State()))
    {
      panicMode := false;
      ghost var target := SyncLoop(tokens, State());
      while current.ttype != EOFS
        invariant Valid() && SyncLoop(tokens, State()) == target
        decreases Remaining(tokens, State())
      {
        if previous.ttype == SEMICOLON {
          return;
        }
        if StartsDeclaration(current.ttype) {
          return;
        }
        Advance();
      }
    }

    /** number, corrected (see AfterNumberAsWritten for the original). */
    method Number() returns (e: Expr)
      requires Valid()
      modifies this
      ensures Valid() && Parsed(State(), e) == AfterNumber(tokens, old(State()))
    {
      Advance();
      if previous.ttype != NUMBER {
        Error(ExpectingNumber);
      }
      e := Expr(previous.text);
    }

    method ExprRule() returns (e: Expr)
      requires Valid()
      modifies this
      ensures Valid() && Parsed(State(), e) == AfterExpr(tokens, old(State()), true)
    {
      e := Number();
      Consume(SEMICOLON, ExpectSemicolon);
    }

    method StatementRule() returns (s: Statement)
      requires Valid()
      modifies this
      ensures Valid() && Parsed(State(), s) == AfterStatement(tokens, old(State()), true)
    {
      var m := Match(PRINT);
      if !m { m := Match(FOR); }
      if !m { m := Match(IF); }
      if !m { m := Match(RETURN); }
      if !m { m := Match(WHILE); }
      if !m { m := Match(BREAK); }
      if !m { m := Match(CONTINUE); }
      if !m { m := Match(LEFT_BRACE); }
      if m {
        return Statement(None);
      }
      var e := ExprRule();
      s := Statement(Some(e));
    }

    /** declaration(ast): the statements it appends to `ast`. */
    method DeclarationRule() returns (added: seq<Statement>)
      requires Valid()
      modifies this
      ensures Valid() && Parsed(State(), added) == AfterDeclaration(tokens, old(State()), true)
    {
      var m := Match(CLASS);
      if !m { m := Match(FUN); }
      if !m { m := Match(VAR); }
      if m {
        added := [];
      } else {
        var s := StatementRule();
        added := [s];
      }
      if panicMode {
        Synchronize();
      }
    }

    method Parse() returns (ast: Declaration)
      requires Valid()
      modifies this
      ensures Valid() && Parsed(State(), ast) == AfterParse(tokens, old(State()))
    {
      Advance();
      ghost var target := ParseLoop(tokens, State(), []);
      var stats := [];
      while true
        invariant Valid() && ParseLoop(tokens, State(), stats) == target
        decreases Remaining(tokens, State())
      {
        var atEnd := Match(EOFS);
        if atEnd {
          break;
        }
        var added := DeclarationRule();
        stats := stats + added;
      }
      ast := Declaration(stats);
    }
  }
}
