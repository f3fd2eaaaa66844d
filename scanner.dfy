// The lexer of src/scanner.cc: a cursor over the source text that
// produces one token per call.
//
// The source is a C string: every position at or past its end reads as
// '\0', and the scanner stops at the first '\0', wherever it is.
module Scanner {
  import opened Wrappers

  /** The token types, numbered in the order of the enum that declares
      them. */
  newtype TokenType = t: int | 0 <= t < 42

  // Single-character tokens.
  const LEFT_PAREN: TokenType := 0
  const RIGHT_PAREN: TokenType := 1
  const LEFT_BRACE: TokenType := 2
  const RIGHT_BRACE: TokenType := 3
  const COMMA: TokenType := 4
  const DOT: TokenType := 5
  const MINUS: TokenType := 6
  const PLUS: TokenType := 7
  const SEMICOLON: TokenType := 8
  const SLASH: TokenType := 9
  const ASTERIX: TokenType := 10
  // One or two character tokens.
  const BANG: TokenType := 11
  const BANG_EQUAL: TokenType := 12
  const EQUAL: TokenType := 13
  const EQUAL_EQUAL: TokenType := 14
  const GREATER: TokenType := 15
  const GREATER_EQUAL: TokenType := 16
  const LESS: TokenType := 17
  const LESS_EQUAL: TokenType := 18
  // Literals.
  const IDENTIFIER: TokenType := 19
  const STRING: TokenType := 20
  const NUMBER: TokenType := 21
  // Keywords.
  const AND: TokenType := 22
  const BREAK: TokenType := 23
  const CLASS: TokenType := 24
  const CONTINUE: TokenType := 25
  const ELSE: TokenType := 26
  const FALSE: TokenType := 27
  const FOR: TokenType := 28
  const FUN: TokenType := 29
  const IF: TokenType := 30
  const NIL: TokenType := 31
  const OR: TokenType := 32
  const PRINT: TokenType := 33
  const RETURN: TokenType := 34
  const SUPER: TokenType := 35
  const THIS: TokenType := 36
  const TRUE: TokenType := 37
  const VAR: TokenType := 38
  const WHILE: TokenType := 39
  const ERROR: TokenType := 40
  const EOFS: TokenType := 41

  datatype Token = Token(ttype: TokenType, text: string, line: int)

  // ---------------------------------------------------------------------
  // Characters.

  /** The character at position i of a C string: '\0' at and past its end. */
  function CharAt(s: string, i: nat): char
  {
    if i < |s| then s[i] else '\0'
  }

  predicate IsAlpha(c: char) { ('a' <= c <= 'z') || ('A' <= c <= 'Z') || c == '_' }
  predicate IsDigit(c: char) { '0' <= c <= '9' }
  predicate IsIdentChar(c: char) { IsAlpha(c) || IsDigit(c) }
  predicate IsBlank(c: char) { c == ' ' || c == '\r' || c == '\t' || c == '\n' }
  /** What the comment loop skips: anything up to a newline or the end. */
  predicate InComment(c: char) { c != '\n' && c != '\0' }
  /** What the string loop skips: anything up to a quote or the end. */
  predicate InString(c: char) { c != '"' && c != '\0' }

  /** The character classes the scanner's loops skip over. */
  datatype Run = Digits | IdentChars | CommentChars | StringChars

  predicate InRun(c: char, run: Run)
  {
    match run
    case Digits => IsDigit(c)
    case IdentChars => IsIdentChar(c)
    case CommentChars => InComment(c)
    case StringChars => InString(c)
  }

  /** The end of the run of characters of the given class that starts at
      i: the first position from i whose character is not in it. */
  function RunEnd(s: string, i: nat, run: Run): (j: nat)
    ensures i <= j && (i <= |s| ==> j <= |s|)
    ensures forall k :: i <= k < j ==> k < |s| && InRun(s[k], run)
    ensures !InRun(CharAt(s, j), run)
    decreases |s| - i
  {
    if InRun(CharAt(s, i), run) then RunEnd(s, i + 1, run) else i
  }

  /** The number of newlines in t. */
  function Newlines(t: string): nat
  {
    if t == [] then 0 else Newlines(t[..|t| - 1]) + (if t[|t| - 1] == '\n' then 1 else 0)
  }

  lemma {:induction false} NewlinesAppend(s: string, a: nat, b: nat, c: nat)
    requires a <= b <= c <= |s|
    ensures Newlines(s[a..c]) == Newlines(s[a..b]) + Newlines(s[b..c])
    decreases c - b
  {
    if b == c {
      assert s[b..c] == [];
      assert s[a..c] == s[a..b];
    } else {
      NewlinesAppend(s, a, b, c - 1);
      assert s[a..c][..c - a - 1] == s[a..c - 1];
      assert s[b..c][..c - b - 1] == s[b..c - 1];
    }
  }

  // ---------------------------------------------------------------------
  // skipWhitespace.

  /** Where skipWhitespace stops when started at i: blanks are skipped one
      at a time and `//` skips to the end of the line. */
  function SkipEnd(s: string, i: nat): (j: nat)
    requires i <= |s|
    ensures i <= j <= |s|
    decreases |s| - i
  {
    var c := CharAt(s, i);
    if IsBlank(c) then SkipEnd(s, i + 1)
    else if c == '/' && CharAt(s, i + 1) == '/' then SkipEnd(s, RunEnd(s, i + 2, CommentChars))
    else i
  }

  /** skipWhitespace stops at a character that starts a token or at the end. */
  lemma {:induction false} SkipEndStops(s: string, i: nat)
    requires i <= |s|
    ensures !IsBlank(CharAt(s, SkipEnd(s, i)))
    ensures !(CharAt(s, SkipEnd(s, i)) == '/' && CharAt(s, SkipEnd(s, i) + 1) == '/')
    decreases |s| - i
  {
    var c := CharAt(s, i);
    if IsBlank(c) {
      SkipEndStops(s, i + 1);
    } else if c == '/' && CharAt(s, i + 1) == '/' {
      SkipEndStops(s, RunEnd(s, i + 2, CommentChars));
    }
  }

  /** A text starting with neither a blank nor `//` is not skipped at all. */
  lemma SkipEndAtToken(s: string, i: nat)
    requires i <= |s|
    requires !IsBlank(CharAt(s, i)) && !(CharAt(s, i) == '/' && CharAt(s, i + 1) == '/')
    ensures SkipEnd(s, i) == i
  {
  }

  // ---------------------------------------------------------------------
  // identifierType / checkKeyword.

  /** checkKeyword: the keyword's type when the whole lexeme is the first
      `st` characters already switched on followed by `rest`. */
  function CheckKeyword(lexeme: string, st: nat, rest: string, t: TokenType): (r: TokenType)
    requires st <= |lexeme|
    ensures r == t || r == IDENTIFIER
    ensures r == t <==> t == IDENTIFIER || (|lexeme| == st + |rest| && lexeme[st..] == rest)
  {
    if |lexeme| == st + |rest| && lexeme[st..] == rest then t else IDENTIFIER
  }

  /** identifierType: the keyword trie, switching on the first and, for
      c, f and t, the second character. */
  function IdentifierType(lexeme: string): TokenType
    requires |lexeme| >= 1
  {
    match lexeme[0]
    case 'a' => CheckKeyword(lexeme, 1, "nd", AND)
    case 'b' => CheckKeyword(lexeme, 1, "reak", BREAK)
    case 'c' =>
      if |lexeme| > 1 then
        match lexeme[1]
        case 'l' => CheckKeyword(lexeme, 2, "ass", CLASS)
        case 'o' => CheckKeyword(lexeme, 2, "ntinue", CONTINUE)
        case _ => IDENTIFIER
      else IDENTIFIER
    case 'e' => CheckKeyword(lexeme, 1, "lse", ELSE)
    case 'f' =>
      if |lexeme| > 1 then
        match lexeme[1]
        case 'a' => CheckKeyword(lexeme, 2, "lse", FALSE)
        case 'o' => CheckKeyword(lexeme, 2, "r", FOR)
        case 'u' => CheckKeyword(lexeme, 2, "n", FUN)
        case _ => IDENTIFIER
      else IDENTIFIER
    case 'i' => CheckKeyword(lexeme, 1, "f", IF)
    case 'n' => CheckKeyword(lexeme, 1, "il", NIL)
    case 'o' => CheckKeyword(lexeme, 1, "r", OR)
    case 'p' => CheckKeyword(lexeme, 1, "rint", PRINT)
    case 'r' => CheckKeyword(lexeme, 1, "eturn", RETURN)
    case 's' => CheckKeyword(lexeme, 1, "uper", SUPER)
    case 't' =>
      if |lexeme| > 1 then
        match lexeme[1]
        case 'h' => CheckKeyword(lexeme, 2, "is", THIS)
        case 'r' => CheckKeyword(lexeme, 2, "ue", TRUE)
        case _ => IDENTIFIER
      else IDENTIFIER
    case 'v' => CheckKeyword(lexeme, 1, "ar", VAR)
    case 'w' => CheckKeyword(lexeme, 1, "hile", WHILE)
    case _ => IDENTIFIER
  }

  /** The reserved words of Lox. */
  predicate IsKeyword(lexeme: string)
  {
    lexeme in {"and", "break", "class", "continue", "else", "false", "for", "fun", "if", "nil", "or", "print", "return", "super", "this", "true", "var", "while"}
  }

  /** The trie recognises exactly the reserved words, and only when the
      whole lexeme is one: `andy` and `fo` are identifiers. */
  lemma IdentifierTypeIsKeyword(lexeme: string)
    requires |lexeme| >= 1
    ensures IdentifierType(lexeme) != IDENTIFIER <==> IsKeyword(lexeme)
  {
    if IdentifierType(lexeme) != IDENTIFIER {
      OnlyKeywords(lexeme);
    } else if IsKeyword(lexeme) {
      if lexeme == "and" || lexeme == "break" || lexeme == "class" { KeywordsRecognised0(); }
      else if lexeme == "continue" || lexeme == "else" || lexeme == "false" { KeywordsRecognised1(); }
      else if lexeme == "for" || lexeme == "fun" || lexeme == "if" { KeywordsRecognised2(); }
      else if lexeme == "nil" || lexeme == "or" || lexeme == "print" { KeywordsRecognised3(); }
      else if lexeme == "return" || lexeme == "super" || lexeme == "this" { KeywordsRecognised4(); }
      else if lexeme == "true" || lexeme == "var" || lexeme == "while" { KeywordsRecognised5(); }
    }
  }

  /** Each reserved word scans as its own keyword. */
  lemma KeywordsRecognised0()
    ensures IdentifierType("and") == AND
    ensures IdentifierType("break") == BREAK
    ensures IdentifierType("class") == CLASS
  {
    assert "and"[1..] == "nd";
    assert "break"[1..] == "reak";
    assert "class"[2..] == "ass";
  }

  lemma KeywordsRecognised1()
    ensures IdentifierType("continue") == CONTINUE
    ensures IdentifierType("else") == ELSE
    ensures IdentifierType("false") == FALSE
  {
    assert "continue"[2..] == "ntinue";
    assert "else"[1..] == "lse";
    assert "false"[2..] == "lse";
  }

  lemma KeywordsRecognised2()
    ensures IdentifierType("for") == FOR
    ensures IdentifierType("fun") == FUN
    ensures IdentifierType("if") == IF
  {
    assert "for"[2..] == "r";
    assert "fun"[2..] == "n";
    assert "if"[1..] == "f";
  }

  lemma KeywordsRecognised3()
    ensures IdentifierType("nil") == NIL
    ensures IdentifierType("or") == OR
    ensures IdentifierType("print") == PRINT
  {
    assert "nil"[1..] == "il";
    assert "or"[1..] == "r";
    assert "print"[1..] == "rint";
  }

  lemma KeywordsRecognised4()
    ensures IdentifierType("return") == RETURN
    ensures IdentifierType("super") == SUPER
    ensures IdentifierType("this") == THIS
  {
    assert "return"[1..] == "eturn";
    assert "super"[1..] == "uper";
    assert "this"[2..] == "is";
  }

  lemma KeywordsRecognised5()
    ensures IdentifierType("true") == TRUE
    ensures IdentifierType("var") == VAR
    ensures IdentifierType("while") == WHILE
  {
    assert "true"[2..] == "ue";
    assert "var"[1..] == "ar";
    assert "while"[1..] == "hile";
  }

  /** A lexeme that checkKeyword(st, rest) accepts is its first st
      characters followed by rest. */
  lemma Spelled(lexeme: string, st: nat, rest: string, t: TokenType)
    requires st <= |lexeme| && t != IDENTIFIER && CheckKeyword(lexeme, st, rest, t) != IDENTIFIER
    ensures lexeme == lexeme[..st] + rest
  {
    assert lexeme == lexeme[..st] + lexeme[st..];
  }

  /** Whatever the trie does not map to IDENTIFIER is a reserved word. */
  lemma OnlyKeywords(lexeme: string)
    requires |lexeme| >= 1 && IdentifierType(lexeme) != IDENTIFIER
    ensures IsKeyword(lexeme)
  {
    assert lexeme[..1] == [lexeme[0]];
    if |lexeme| > 1 {
      assert lexeme[..2] == [lexeme[0], lexeme[1]];
    }
    if lexeme[0] <= 'c' {
      OnlyKeywordsABC(lexeme);
    } else if lexeme[0] <= 'f' {
      OnlyKeywordsEF(lexeme);
    } else if lexeme[0] <= 'o' {
      OnlyKeywordsINO(lexeme);
    } else if lexeme[0] <= 's' {
      OnlyKeywordsPRS(lexeme);
    } else {
      OnlyKeywordsTVW(lexeme);
    }
  }

  lemma OnlyKeywordsABC(lexeme: string)
    requires |lexeme| >= 1 && IdentifierType(lexeme) != IDENTIFIER && lexeme[0] <= 'c'
    requires lexeme[..1] == [lexeme[0]] && (|lexeme| > 1 ==> lexeme[..2] == [lexeme[0], lexeme[1]])
    ensures IsKeyword(lexeme)
  {
    if lexeme[0] == 'a' {
      Spelled(lexeme, 1, "nd", AND);
      assert lexeme == "and";
    } else if lexeme[0] == 'b' {
      Spelled(lexeme, 1, "reak", BREAK);
      assert lexeme == "break";
    } else {
      if lexeme[1] == 'l' {
        Spelled(lexeme, 2, "ass", CLASS);
        assert lexeme == "class";
      } else {
        Spelled(lexeme, 2, "ntinue", CONTINUE);
        assert lexeme == "continue";
      }
    }
  }

  lemma OnlyKeywordsEF(lexeme: string)
    requires |lexeme| >= 1 && IdentifierType(lexeme) != IDENTIFIER && 'c' < lexeme[0] && lexeme[0] <= 'f'
    requires lexeme[..1] == [lexeme[0]] && (|lexeme| > 1 ==> lexeme[..2] == [lexeme[0], lexeme[1]])
    ensures IsKeyword(lexeme)
  {
    if lexeme[0] == 'e' {
      Spelled(lexeme, 1, "lse", ELSE);
      assert lexeme == "else";
    } else {
      if lexeme[1] == 'a' {
        Spelled(lexeme, 2, "lse", FALSE);
        assert lexeme == "false";
      } else if lexeme[1] == 'o' {
        Spelled(lexeme, 2, "r", FOR);
        assert lexeme == "for";
      } else {
        Spelled(lexeme, 2, "n", FUN);
        assert lexeme == "fun";
      }
    }
  }

  lemma OnlyKeywordsINO(lexeme: string)
    requires |lexeme| >= 1 && IdentifierType(lexeme) != IDENTIFIER && 'f' < lexeme[0] && lexeme[0] <= 'o'
    requires lexeme[..1] == [lexeme[0]] && (|lexeme| > 1 ==> lexeme[..2] == [lexeme[0], lexeme[1]])
    ensures IsKeyword(lexeme)
  {
    if lexeme[0] == 'i' {
      Spelled(lexeme, 1, "f", IF);
      assert lexeme == "if";
    } else if lexeme[0] == 'n' {
      Spelled(lexeme, 1, "il", NIL);
      assert lexeme == "nil";
    } else {
      Spelled(lexeme, 1, "r", OR);
      assert lexeme == "or";
    }
  }

  lemma OnlyKeywordsPRS(lexeme: string)
    requires |lexeme| >= 1 && IdentifierType(lexeme) != IDENTIFIER && 'o' < lexeme[0] && lexeme[0] <= 's'
    requires lexeme[..1] == [lexeme[0]] && (|lexeme| > 1 ==> lexeme[..2] == [lexeme[0], lexeme[1]])
    ensures IsKeyword(lexeme)
  {
    if lexeme[0] == 'p' {
      Spelled(lexeme, 1, "rint", PRINT);
      assert lexeme == "print";
    } else if lexeme[0] == 'r' {
      Spelled(lexeme, 1, "eturn", RETURN);
      assert lexeme == "return";
    } else {
      Spelled(lexeme, 1, "uper", SUPER);
      assert lexeme == "super";
    }
  }

  lemma OnlyKeywordsTVW(lexeme: string)
    requires |lexeme| >= 1 && IdentifierType(lexeme) != IDENTIFIER && 's' < lexeme[0]
    requires lexeme[..1] == [lexeme[0]] && (|lexeme| > 1 ==> lexeme[..2] == [lexeme[0], lexeme[1]])
    ensures IsKeyword(lexeme)
  {
    if lexeme[0] == 't' {
      if lexeme[1] == 'h' {
        Spelled(lexeme, 2, "is", THIS);
        assert lexeme == "this";
      } else {
        Spelled(lexeme, 2, "ue", TRUE);
        assert lexeme == "true";
      }
    } else if lexeme[0] == 'v' {
      Spelled(lexeme, 1, "ar", VAR);
      assert lexeme == "var";
    } else {
      Spelled(lexeme, 1, "hile", WHILE);
      assert lexeme == "while";
    }
  }



  // ---------------------------------------------------------------------
  // number.

  /** Where number() stops, given the position after the first digit: the
      digit run, then a fraction only when `.` is followed by a digit. */
  function NumberEnd(s: string, i: nat): (j: nat)
    requires i <= |s|
    ensures i <= j <= |s|
  {
    var d := RunEnd(s, i, Digits);
    if CharAt(s, d) == '.' && IsDigit(CharAt(s, d + 1)) then RunEnd(s, d + 1, Digits) else d
  }

  /** A number lexeme is a run of digits with at most one `.`, which is
      followed by a digit; the scan stops where no digit, and no `.` with a
      digit after it, follows. */
  lemma NumberShape(s: string, i: nat)
    requires 1 <= i <= |s| && IsDigit(s[i - 1])
    ensures var j := NumberEnd(s, i);
      && (forall k :: i - 1 <= k < j ==> IsDigit(s[k]) || (s[k] == '.' && k + 1 < j && IsDigit(s[k + 1])))
      && (forall k, m :: i <= k < m < j && s[k] == '.' ==> s[m] != '.')
      && !IsDigit(CharAt(s, j))
      && ((forall k :: i <= k < j ==> s[k] != '.') ==> !(CharAt(s, j) == '.' && IsDigit(CharAt(s, j + 1))))
  {
    var d := RunEnd(s, i, Digits);
    if CharAt(s, d) == '.' && IsDigit(CharAt(s, d + 1)) {
      var j := RunEnd(s, d + 1, Digits);
      assert s[d + 1] == CharAt(s, d + 1);
    }
  }

  // ---------------------------------------------------------------------
  // The token read at a position.

  /** The type of a token that is always one character. */
  function SingleCharType(c: char): Option<TokenType>
  {
    match c
    case '(' => Some(LEFT_PAREN)
    case ')' => Some(RIGHT_PAREN)
    case '{' => Some(LEFT_BRACE)
    case '}' => Some(RIGHT_BRACE)
    case ';' => Some(SEMICOLON)
    case ',' => Some(COMMA)
    case '.' => Some(DOT)
    case '-' => Some(MINUS)
    case '+' => Some(PLUS)
    case '/' => Some(SLASH)
    case '*' => Some(ASTERIX)
    case _ => None
  }

  /** The type of `!`, `=`, `<` or `>`, followed or not by `=`. */
  function OperatorType(c: char, withEqual: bool): TokenType
  {
    match c
    case '!' => if withEqual then BANG_EQUAL else BANG
    case '=' => if withEqual then EQUAL_EQUAL else EQUAL
    case '<' => if withEqual then LESS_EQUAL else LESS
    case _ => if withEqual then GREATER_EQUAL else GREATER
  }

  predicate IsOperator(c: char) { c == '!' || c == '=' || c == '<' || c == '>' }

  /** A token, the position after it and the line after it. */
  datatype Scanned = Scanned(token: Token, next: nat, line: int)

  const UnterminatedString := "Unterminated string."
  const UnexpectedCharacter := "Unexpected character."

  /** The token that starts at position p (where skipWhitespace stopped),
      on the given line. */
  function Lex(s: string, p: nat, line: int): (r: Scanned)
    requires p <= |s|
    ensures p <= r.next <= |s|
  {
    var c := CharAt(s, p);
    if c == '\0' then Scanned(Token(EOFS, s[p..p], line), p, line)
    else if IsAlpha(c) then LexIdentifier(s, p, line)
    else if IsDigit(c) then LexNumber(s, p, line)
    else if c == '"' then LexString(s, p, line)
    else LexPunctuation(s, p, line)
  }

  function LexIdentifier(s: string, p: nat, line: int): (r: Scanned)
    requires p < |s|
    ensures p < r.next <= |s|
  {
    var j := RunEnd(s, p + 1, IdentChars);
    Scanned(Token(IdentifierType(s[p..j]), s[p..j], line), j, line)
  }

  function LexNumber(s: string, p: nat, line: int): (r: Scanned)
    requires p < |s|
    ensures p < r.next <= |s|
  {
    var j := NumberEnd(s, p + 1);
    Scanned(Token(NUMBER, s[p..j], line), j, line)
  }

  function LexString(s: string, p: nat, line: int): (r: Scanned)
    requires p < |s|
    ensures p < r.next <= |s|
  {
    var j := RunEnd(s, p + 1, StringChars);
    var l := line + Newlines(s[p + 1..j]);
    if CharAt(s, j) == '\0' then Scanned(Token(ERROR, UnterminatedString, l), j, l)
    else Scanned(Token(STRING, s[p..j + 1], l), j + 1, l)
  }

  /** One- and two-character tokens, and the error for any other character. */
  function LexPunctuation(s: string, p: nat, line: int): (r: Scanned)
    requires p < |s|
    ensures p < r.next <= |s|
  {
    var c := s[p];
    if SingleCharType(c).Some? then
      Scanned(Token(SingleCharType(c).value, s[p..p + 1], line), p + 1, line)
    else if IsOperator(c) then
      var j := if CharAt(s, p + 1) == '=' then p + 2 else p + 1;
      Scanned(Token(OperatorType(c, j == p + 2), s[p..j], line), j, line)
    else Scanned(Token(ERROR, UnexpectedCharacter, line), p + 1, line)
  }

  /** Every token other than an error is the slice of the source it was
      read from; only EOFS is empty, and it does not move the cursor. */
  lemma LexedText(s: string, p: nat, line: int)
    requires p <= |s|
    ensures var r := Lex(s, p, line);
      && (r.token.ttype != ERROR ==> r.token.text == s[p..r.next])
      && (r.token.ttype == EOFS <==> CharAt(s, p) == '\0')
      && (r.token.ttype == EOFS ==> r.next == p && r.line == line)
      && (r.token.ttype != EOFS ==> r.next > p)
  {
  }

  /** `!`, `=`, `<` and `>` take a following `=` into the token. */
  lemma TwoCharOperators(s: string, p: nat, line: int)
    requires p < |s| && IsOperator(s[p])
    ensures Lex(s, p, line).token.ttype == OperatorType(s[p], CharAt(s, p + 1) == '=')
    ensures Lex(s, p, line).next == if CharAt(s, p + 1) == '=' then p + 2 else p + 1
    ensures Lex(s, p, line).token.ttype in {BANG_EQUAL, EQUAL_EQUAL, LESS_EQUAL, GREATER_EQUAL} <==> CharAt(s, p + 1) == '='
  {
  }

  /** An identifier is a letter or `_` followed by letters, digits and `_`,
      as long as possible; its type is the keyword lookup of the whole lexeme. */
  lemma IdentifierShape(s: string, p: nat, line: int)
    requires p < |s| && IsAlpha(s[p])
    ensures var r := Lex(s, p, line);
      && (forall k :: p <= k < r.next ==> IsIdentChar(s[k]))
      && !IsIdentChar(CharAt(s, r.next))
      && (r.token.ttype == IDENTIFIER <==> !IsKeyword(s[p..r.next]))
  {
    var j := RunEnd(s, p + 1, IdentChars);
    IdentifierTypeIsKeyword(s[p..j]);
  }

  /** A string runs to the next quote; without one it is the error
      "Unterminated string.". Newlines inside it count towards the line. */
  lemma StringShape(s: string, p: nat, line: int)
    requires p < |s| && s[p] == '"'
    ensures var r := Lex(s, p, line);
      var j := RunEnd(s, p + 1, StringChars);
      && r.line == line + Newlines(s[p + 1..j])
      && (CharAt(s, j) == '\0' ==> r.token == Token(ERROR, UnterminatedString, r.line))
      && (CharAt(s, j) == '"' ==> r.token == Token(STRING, s[p..j + 1], r.line) && r.next == j + 1)
  {
  }

  /** At the end the token is EOFS, and scanning again gives EOFS again. */
  lemma EndRepeats(s: string, line: int)
    ensures SkipEnd(s, |s|) == |s|
    ensures Lex(s, |s|, line) == Scanned(Token(EOFS, "", line), |s|, line)
  {
    assert CharAt(s, |s|) == '\0';
  }

  /** `1.` scans as the number `1` followed by `.`; `1.2.` as `1.2` and `.`. */
  lemma NumberExamples()
    ensures Lex("1.", 0, 1).token == Token(NUMBER, "1", 1)
    ensures Lex("1.2.", 0, 1).token == Token(NUMBER, "1.2", 1)
  {
    assert RunEnd("1.", 1, Digits) == 1;
    assert RunEnd("1.2.", 1, Digits) == 1;
    assert RunEnd("1.2.", 3, Digits) == 3;
    assert RunEnd("1.2.", 2, Digits) == 3;
  }

  // ---------------------------------------------------------------------
  // The scanner itself.

  class Scanner {
    const source: string
    var start: nat
    var current: nat
    var line: int

    ghost predicate Valid()
      reads this
    {
      start <= current <= |source|
    }

    /** A scanner at the beginning of the source, on line 1. */
    constructor (source: string)
      ensures Valid() && this.source == source && start == 0 && current == 0 && line == 1
    {
      this.source := source;
      start, current, line := 0, 0, 1;
    }

    function Peek(): char
      reads this
    {
      CharAt(source, current)
    }

    predicate IsAtEnd()
      reads this
    {
      Peek() == '\0'
    }

    /** The character after the current one; '\0' at the end. */
    function PeekNext(): (c: char)
      reads this
      ensures IsAtEnd() ==> c == '\0'
    {
      if IsAtEnd() then '\0' else CharAt(source, current + 1)
    }

    /** Step over the current character and return it. */
    method Advance() returns (c: char)
      requires Valid() && !IsAtEnd()
      modifies this
      ensures Valid() && current == old(current) + 1 && c == source[old(current)]
      ensures start == old(start) && line == old(line)
    {
      current := current + 1;
      c := source[current - 1];
    }

    /** match: step over the current character when it is `expected`. */
    method Match(expected: char) returns (matched: bool)
      requires Valid()
      modifies this
      ensures Valid() && start == old(start) && line == old(line)
      ensures matched <==> !old(IsAtEnd()) && CharAt(source, old(current)) == expected
      ensures current == old(current) + (if matched then 1 else 0)
    {
      if IsAtEnd() {
        return false;
      }
      if source[current] != expected {
        return false;
      }
      current := current + 1;
      return true;
    }

    /** makeToken: the lexeme from start to current, on the current line. */
    function MakeToken(ttype: TokenType): (t: Token)
      reads this
      requires Valid()
      ensures t.ttype == ttype && t.line == line && |t.text| == current - start
      ensures forall k :: 0 <= k < |t.text| ==> t.text[k] == source[start + k]
    {
      Token(ttype, source[start..current], line)
    }

    /** errorToken: the message as the text. */
    function ErrorToken(message: string): (t: Token)
      reads this
      ensures t.ttype == ERROR && t.text == message && t.line == line
    {
      Token(ERROR, message, line)
    }

    /** skipWhitespace: step over blanks and comments, counting newlines. */
    method SkipWhitespace()
      requires Valid()
      modifies this
      ensures Valid() && start == old(start)
      ensures current == SkipEnd(source, old(current))
      ensures line == old(line) + Newlines(source[old(current)..current])
    {
      ghost var from := current;
      ghost var target := SkipEnd(source, current);
      while true
        invariant Valid() && start == old(start) && from <= current <= target
        invariant SkipEnd(source, current) == target
        invariant line == old(line) + Newlines(source[from..current])
        decreases |source| - current
      {
        var c := Peek();
        if c == ' ' || c == '\r' || c == '\t' || c == '\n' {
          AdvanceCounting(from, old(line));
        } else if c == '/' {
          if PeekNext() == '/' {
            ghost var here := current;
            SkipComment();
            NewlinesNone(source, from, here, current);
          } else {
            return;
          }
        } else {
          return;
        }
      }
    }

    /** Step over one character, counting it when it is a newline (the
        blank step of skipWhitespace and the loop body of string). */
    method AdvanceCounting(ghost from: nat, ghost base: int)
      requires Valid() && from <= current && !IsAtEnd()
      requires line == base + Newlines(source[from..current])
      modifies this
      ensures Valid() && start == old(start) && current == old(current) + 1
      ensures line == base + Newlines(source[from..current])
    {
      var c := Peek();
      NewlinesAppend(source, from, current, current + 1);
      assert source[current..current + 1] == [c];
      if c == '\n' {
        line := line + 1;
      }
      var _ := Advance();
    }

    /** The comment loop of skipWhitespace: up to the newline or the end. */
    method SkipComment()
      requires Valid()
      modifies this
      ensures Valid() && start == old(start) && line == old(line)
      ensures current == RunEnd(source, old(current), CommentChars)
    {
      while Peek() != '\n' && !IsAtEnd()
        invariant Valid() && start == old(start) && line == old(line) && old(current) <= current
        invariant RunEnd(source, current, CommentChars) == RunEnd(source, old(current), CommentChars)
        decreases |source| - current
      {
        var _ := Advance();
      }
    }

    /** identifier: the rest of an identifier, then its type. */
    method Identifier() returns (t: Token)
      requires Valid() && start < current
      modifies this
      ensures Valid() && start == old(start) && line == old(line)
      ensures current == RunEnd(source, old(current), IdentChars)
      ensures t == MakeToken(IdentifierType(source[start..current]))
    {
      while IsAlpha(Peek()) || IsDigit(Peek())
        invariant Valid() && start == old(start) && line == old(line) && old(current) <= current
        invariant RunEnd(source, current, IdentChars) == RunEnd(source, old(current), IdentChars)
        decreases |source| - current
      {
        var _ := Advance();
      }
      t := MakeToken(IdentifierType(source[start..current]));
    }

    /** number: digits, then a fraction when `.` is followed by a digit. */
    method Number() returns (t: Token)
      requires Valid()
      modifies this
      ensures Valid() && start == old(start) && line == old(line)
      ensures current == NumberEnd(source, old(current))
      ensures t == MakeToken(NUMBER)
    {
      SkipDigits();
      if Peek() == '.' && IsDigit(PeekNext()) {
        var _ := Advance();
        SkipDigits();
      }
      t := MakeToken(NUMBER);
    }

    /** The `while (isDigit(peek())) advance();` loops of number. */
    method SkipDigits()
      requires Valid()
      modifies this
      ensures Valid() && start == old(start) && line == old(line)
      ensures current == RunEnd(source, old(current), Digits)
    {
      while IsDigit(Peek())
        invariant Valid() && start == old(start) && line == old(line) && old(current) <= current
        invariant RunEnd(source, current, Digits) == RunEnd(source, old(current), Digits)
        decreases |source| - current
      {
        var _ := Advance();
      }
    }

    /** string: up to the closing quote, counting newlines; an error token
        if the source ends first. */
    method String() returns (t: Token)
      requires Valid()
      modifies this
      ensures Valid() && start == old(start)
      ensures var j := RunEnd(source, old(current), StringChars);
        && line == old(line) + Newlines(source[old(current)..j])
        && (CharAt(source, j) == '\0' ==> current == j && t == ErrorToken(UnterminatedString))
        && (CharAt(source, j) == '"' ==> current == j + 1 && t == MakeToken(STRING))
    {
      ghost var from := current;
      while Peek() != '"' && !IsAtEnd()
        invariant Valid() && start == old(start) && from <= current
        invariant RunEnd(source, current, StringChars) == RunEnd(source, from, StringChars)
        invariant line == old(line) + Newlines(source[from..current])
        decreases |source| - current
      {
        AdvanceCounting(from, old(line));
      }
      if IsAtEnd() {
        return ErrorToken(UnterminatedString);
      }
      var _ := Advance();
      t := MakeToken(STRING);
    }

    /** scanToken: skip blanks and comments, then read the token there. */
    method ScanToken() returns (t: Token)
      requires Valid()
      modifies this
      ensures Valid()
      ensures var p := SkipEnd(source, old(current));
        var r := Lex(source, p, old(line) + Newlines(source[old(current)..p]));
        && start == p && t == r.token && current == r.next && line == r.line
    {
      SkipWhitespace();
      start := current;
      t := ScanAt();
    }

    /** The body of scanToken after skipWhitespace, from start == current. */
    method ScanAt() returns (t: Token)
      requires Valid() && start == current
      modifies this
      ensures Valid() && start == old(start)
      ensures var r := Lex(source, old(current), old(line));
        t == r.token && current == r.next && line == r.line
    {
      if IsAtEnd() {
        return MakeToken(EOFS);
      }
      var c := Advance();
      if IsAlpha(c) {
        t := Identifier();
        return;
      }
      if IsDigit(c) {
        t := Number();
        return;
      }
      if c == '"' {
        t := String();
        return;
      }
      t := Punctuation(c);
    }

    /** The switch of scanToken on a character that starts no identifier,
        number or string. */
    method Punctuation(c: char) returns (t: Token)
      requires Valid() && current == start + 1 && c == source[start]
      modifies this
      ensures Valid() && start == old(start)
      ensures var r := LexPunctuation(source, start, old(line));
        t == r.token && current == r.next && line == r.line
    {
      match c
      case '(' => return MakeToken(LEFT_PAREN);
      case ')' => return MakeToken(RIGHT_PAREN);
      case '{' => return MakeToken(LEFT_BRACE);
      case '}' => return MakeToken(RIGHT_BRACE);
      case ';' => return MakeToken(SEMICOLON);
      case ',' => return MakeToken(COMMA);
      case '.' => return MakeToken(DOT);
      case '-' => return MakeToken(MINUS);
      case '+' => return MakeToken(PLUS);
      case '/' => return MakeToken(SLASH);
      case '*' => return MakeToken(ASTERIX);
      case '!' =>
        var m := Match('=');
        return MakeToken(if m then BANG_EQUAL else BANG);
      case '=' =>
        var m := Match('=');
        return MakeToken(if m then EQUAL_EQUAL else EQUAL);
      case '<' =>
        var m := Match('=');
        return MakeToken(if m then LESS_EQUAL else LESS);
      case '>' =>
        var m := Match('=');
        return MakeToken(if m then GREATER_EQUAL else GREATER);
      case _ => return ErrorToken(UnexpectedCharacter);
    }
  }

  lemma NewlinesNone(s: string, a: nat, b: nat, c: nat)
    requires a <= b <= c <= |s|
    requires forall k :: b <= k < c ==> s[k] != '\n'
    ensures Newlines(s[a..c]) == Newlines(s[a..b])
  {
    NewlinesAppend(s, a, b, c);
    NoNewlines(s[b..c]);
  }

  lemma {:induction false} NoNewlines(t: string)
    requires forall k :: 0 <= k < |t| ==> t[k] != '\n'
    ensures Newlines(t) == 0
    decreases |t|
  {
    if t != [] {
      NoNewlines(t[..|t| - 1]);
    }
  }
}
