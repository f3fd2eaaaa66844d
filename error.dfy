// Error reporting (src/error.cc, src/error.hh): the two errorAt
// overloads, their message format and the panic-mode suppression that
// keeps only the first error of a run, and reset.
//
// The output stream is modelled as the text written to it so far.
module Errors {
  import opened Scanner

  // ---------------------------------------------------------------------
  // fmt's `{}` for an integer: decimal, a leading '-' when negative.

  function DigitChar(d: nat): (c: char)
    requires d < 10
    ensures '0' <= c <= '9'
  {
    "0123456789"[d]
  }

  /** The decimal digits of n, most significant first, without leading zeros. */
  function Decimal(n: nat): (s: string)
    ensures |s| >= 1
    ensures forall k :: 0 <= k < |s| ==> '0' <= s[k] <= '9'
    ensures |s| > 1 ==> s[0] != '0'
  {
    if n < 10 then [DigitChar(n)] else Decimal(n / 10) + [DigitChar(n % 10)]
  }

  /** The number a string of decimal digits denotes. */
  function DigitsValue(s: string): nat
    requires forall k :: 0 <= k < |s| ==> '0' <= s[k] <= '9'
  {
    if s == [] then 0 else DigitsValue(s[..|s| - 1]) * 10 + (s[|s| - 1] as int - '0' as int)
  }

  /** Reading the digits back gives the number: the format loses nothing. */
  lemma {:induction false} DecimalRoundTrip(n: nat)
    ensures DigitsValue(Decimal(n)) == n
  {
    var s := Decimal(n);
    if n < 10 {
      DigitCharValue(n);
      assert s[..0] == [];
    } else {
      var q, r := n / 10, n % 10;
      DecimalRoundTrip(q);
      DigitCharValue(r);
      assert s == Decimal(q) + [DigitChar(r)];
      assert s[..|s| - 1] == Decimal(q) && s[|s| - 1] == DigitChar(r);
      assert DigitsValue(s) == DigitsValue(Decimal(q)) * 10 + r;
    }
  }

  lemma DigitCharValue(d: nat)
    requires d < 10
    ensures DigitChar(d) as int - '0' as int == d
  {
  }

  /** Different numbers are written differently. */
  lemma DecimalInjective(m: nat, n: nat)
    requires Decimal(m) == Decimal(n)
    ensures m == n
  {
    DecimalRoundTrip(m);
    DecimalRoundTrip(n);
  }

  function IntToString(i: int): (s: string)
    ensures |s| >= 1 && (s[0] == '-' || '0' <= s[0] <= '9')
    ensures forall k :: 0 < k < |s| ==> '0' <= s[k] <= '9'
  {
    if i < 0 then "-" + Decimal(-i) else Decimal(i)
  }

  /** The integer an optionally signed digit string denotes. */
  function ParseInt(s: string): int
    requires s != [] && forall k :: 0 < k < |s| ==> '0' <= s[k] <= '9'
    requires s[0] == '-' || '0' <= s[0] <= '9'
  {
    if s[0] == '-' then -(DigitsValue(s[1..]) as int) else DigitsValue(s)
  }

  /** Reading back what was written gives the integer; the sign is written
      exactly for negative numbers. */
  lemma IntRoundTrip(i: int)
    ensures IntToString(i)[0] == '-' <==> i < 0
    ensures ParseInt(IntToString(i)) == i
  {
    if i < 0 {
      NegativeRoundTrip(i);
    } else {
      DecimalRoundTrip(i);
      assert ParseInt(Decimal(i)) == DigitsValue(Decimal(i));
    }
  }

  lemma NegativeRoundTrip(i: int)
    requires i < 0
    ensures IntToString(i)[0] == '-' && ParseInt(IntToString(i)) == i
  {
    var n: nat := -i;
    DecimalRoundTrip(n);
    ParseNegative(Decimal(n));
    assert IntToString(i) == "-" + Decimal(n);
  }

  lemma ParseNegative(d: string)
    requires d != [] && forall k :: 0 <= k < |d| ==> '0' <= d[k] <= '9'
    ensures ParseInt("-" + d) == -(DigitsValue(d) as int)
  {
    assert ("-" + d)[1..] == d;
  }

  // ---------------------------------------------------------------------
  // Message format.

  /** `[line N] Error`, the head of every message. */
  function Header(line: int): string
  {
    "[line " + IntToString(line) + "] Error"
  }

  /** What the token overload writes between the head and the message. */
  function Where(token: Token): (r: string)
    ensures token.ttype == EOFS ==> r == " at end"
    ensures token.ttype == ERROR ==> r == ""
    ensures token.ttype != EOFS && token.ttype != ERROR ==> r == " at '" + token.text + "'"
  {
    if token.ttype == EOFS then " at end"
    else if token.ttype == ERROR then ""
    else " at '" + token.text + "'"
  }

  /** The text of errorAt(line, message). */
  function LineError(line: int, message: string): (r: string)
  {
    Header(line) + ": " + message + "\n"
  }

  /** The text of errorAt(token, message). */
  function TokenError(token: Token, message: string): (r: string)
  {
    Header(token.line) + Where(token) + ": " + message + "\n"
  }

  /** The two overloads agree on an error token, whose position the
      scanner's message already describes; every message is one line that
      opens with the line number. */
  lemma OverloadsAgree(token: Token, message: string)
    ensures token.ttype == ERROR ==> TokenError(token, message) == LineError(token.line, message)
    ensures TokenError(token, message)[..6] == "[line "
    ensures TokenError(token, message)[|TokenError(token, message)| - 1] == '\n'
  {
  }

  /** The number after `[line ` is the line: the message names it
      unambiguously, whatever follows. */
  lemma HeaderNamesLine(line: int, rest: string)
    ensures (Header(line) + rest)[6..6 + |IntToString(line)|] == IntToString(line)
    ensures (Header(line) + rest)[6 + |IntToString(line)|] == ']'
  {
  }

  // ---------------------------------------------------------------------
  // Panic mode.

  /** The flags and the text written so far. */
  datatype ErrorState = ErrorState(panicMode: bool, hadError: bool, out: string)

  /** One report: suppressed while in panic mode, otherwise written, and
      both flags are set. */
  function Report(e: ErrorState, text: string): (r: ErrorState)
    ensures e.panicMode ==> r == e
    ensures !e.panicMode ==> r == ErrorState(true, true, e.out + text)
  {
    if e.panicMode then e else ErrorState(true, true, e.out + text)
  }

  /** Several reports, in order. */
  function ReportAll(e: ErrorState, texts: seq<string>): ErrorState
    decreases |texts|
  {
    if texts == [] then e else ReportAll(Report(e, texts[0]), texts[1..])
  }

  /** Only the first of a run of errors is written: from a state that is
      not panicking, any non-empty run writes exactly its first message
      and leaves both flags set; from a panicking state nothing changes. */
  lemma {:induction false} FirstErrorOnly(e: ErrorState, texts: seq<string>)
    ensures e.panicMode ==> ReportAll(e, texts) == e
    ensures !e.panicMode && texts != [] ==> ReportAll(e, texts) == ErrorState(true, true, e.out + texts[0])
    ensures texts == [] ==> ReportAll(e, texts) == e
    decreases |texts|
  {
    if texts != [] {
      FirstErrorOnly(Report(e, texts[0]), texts[1..]);
    }
  }

  /** ErrorManager: the panic and error flags over an output stream. */
  class ErrorManager {
    var panicMode: bool
    var hadError: bool
    var cerr: string

    ghost function State(): ErrorState
      reads this
    {
      ErrorState(panicMode, hadError, cerr)
    }

    /** Both flags start false; nothing has been written. */
    constructor ()
      ensures !panicMode && !hadError && cerr == ""
    {
      panicMode, hadError, cerr := false, false, "";
    }

    /** errorAt(line, message). */
    method ErrorAtLine(line: int, message: string)
      modifies this
      ensures State() == Report(old(State()), LineError(line, message))
    {
      if panicMode {
        return;
      }
      panicMode := true;
      cerr := cerr + (Header(line) + ": " + message + "\n");
      hadError := true;
    }

    /** errorAt(token, message). */
    method ErrorAtToken(token: Token, message: string)
      modifies this
      ensures State() == Report(old(State()), TokenError(token, message))
    {
      if panicMode {
        return;
      }
      panicMode := true;
      var at := "";
      if token.ttype == EOFS {
        at := " at end";
      } else if token.ttype == ERROR {
      } else {
        at := " at '" + token.text + "'";
      }
      cerr := cerr + (Header(token.line) + at + ": " + message + "\n");
      hadError := true;
    }

    /** reset: clear both flags; the stream keeps what was written. */
    method Reset()
      modifies this
      ensures State() == ErrorState(false, false, old(cerr))
    {
      panicMode := false;
      hadError := false;
    }
  }
}
