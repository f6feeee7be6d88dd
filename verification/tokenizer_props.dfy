/**
  Properties of `nextToken`, `pushBack` and `lineno` over whole inputs:
  push-back replay, sticky end of input, line counting, and what each
  kind of token is made of.

  Most lemmas start from a scanner that is `Ready`: no replay is pending
  and no character is held, as after a token that consumed its last
  character. They describe the token read next from the input that
  follows `pos`.
 */
module TokenizerProps {
  import opened Chars
  import opened SyntaxTable
  import opened Lexemes
  import opened Tokenizer

  /** About to scan a fresh token: no replay pending, no character held. */
  predicate Ready(s: Scanner)
  {
    !s.pushedBack && s.peek == NeedChar
  }

  /** A class with none of the flags that start whitespace, a number, a word or a string. */
  predicate Plain(t: Table, c: Code)
  {
    && !Has(Class(t, c), CT_WHITESPACE)
    && !Has(Class(t, c), CT_DIGIT)
    && !Has(Class(t, c), CT_ALPHA)
    && !Has(Class(t, c), CT_QUOTE)
  }

  /** Either slash comment style is enabled, so `/` is examined for a comment. */
  predicate SlashOn(o: Options)
  {
    o.slashSlashComments || o.slashStarComments
  }

  // ----------------------------------------------------------------------
  // Helpers: how a pass starts

  /** A pass that starts at a character with no WHITESPACE class dispatches on it at once. */
  lemma VisibleStart(s: Scanner)
    requires Ready(s) && s.pos < |s.input| && !IsBlank(s.table, s.input[s.pos])
    ensures Step(s) == Dispatch(s.(sval := None, pos := s.pos + 1), s.input[s.pos])
  {
    var c := s.input[s.pos];
    var rd := Reader(s.input, s.pos + 1);
    assert Resolve(s.peek, Cursor(s)) == Reading(Chr(c), rd);
    assert SkipBlanks(s.table, s.opts.eolIsSignificant, c, rd, s.lineno) == Visible(c, rd, s.lineno);
  }

  /**
    Two scanners that differ only in position, look-ahead and text, and
    whose look-ahead yields the same character from the same point on,
    scan the same token.
   */
  lemma SameStart(a: Scanner, b: Scanner)
    requires a == b.(pos := a.pos, peek := a.peek, sval := a.sval)
    requires Resolve(a.peek, Cursor(a)) == Resolve(b.peek, Cursor(b))
    requires Resolve(a.peek, Cursor(a)).ch.Chr?
    ensures Step(a) == Step(b)
    ensures Scan(a) == Scan(b)
  {
    assert a.(sval := None, pos := 0, peek := NeedChar) == b.(sval := None, pos := 0, peek := NeedChar);
  }

  /** The text left by the previous token does not affect the next one. */
  lemma TextIrrelevant(s: Scanner)
    ensures Step(s.(sval := None)) == Step(s)
    ensures Scan(s.(sval := None)) == Scan(s)
  {
  }

  // ----------------------------------------------------------------------
  // Push-back and end of input

  /**
    After `pushBack` the next call returns the same token and leaves
    every other field as it was; the call after that scans as if the
    token had never been pushed back.
   */
  lemma PushBackReplays(s: Scanner)
    requires !s.pushedBack && s.ttype != TT_NOTHING
    ensures NextToken(PushBack(s)) == s
    ensures NextToken(NextToken(PushBack(s))) == NextToken(s)
  {
  }

  /** Before any token has been read, `pushBack` has no effect on the next call. */
  lemma PushBackBeforeFirstToken(s: Scanner)
    requires s.ttype == TT_NOTHING
    ensures NextToken(PushBack(s)) == NextToken(s)
  {
  }

  /**
    With the input exhausted and no character held, `nextToken` returns
    TT_EOF and changes nothing else (the text is cleared); calling it again
    gives the same result.
   */
  lemma EofIsSticky(s: Scanner)
    requires !s.pushedBack && Remaining(Cursor(s)) == 0 && !HeldChar(s.peek)
    ensures NextToken(s) == s.(sval := None, ttype := TT_EOF)
    ensures NextToken(NextToken(s)) == NextToken(s)
  {
    EofStep(s);
    EofStep(NextToken(s));
  }

  lemma EofStep(s: Scanner)
    requires !s.pushedBack && Remaining(Cursor(s)) == 0 && !HeldChar(s.peek)
    ensures NextToken(s) == s.(sval := None, ttype := TT_EOF)
  {
    assert Read(Cursor(s)) == Reading(Eof, Cursor(s));
    assert Resolve(s.peek, Cursor(s)) == Reading(Eof, Cursor(s));
  }

  /**
    The line number never goes down: a scan can only raise it, and neither
    `pushBack` nor the replay of a pushed-back token changes it.
   */
  lemma LinenoNeverFalls(s: Scanner)
    ensures Lineno(NextToken(s)) >= Lineno(s)
    ensures Lineno(PushBack(s)) == Lineno(s)
    ensures s.pushedBack ==> Lineno(NextToken(s)) == Lineno(s)
  {
  }

  // ----------------------------------------------------------------------
  // Ordinary characters

  /**
    A character with none of the syntax classes, other than a `/` that
    may open a comment, is returned as its own code and consumed; the
    look-ahead stays empty.
   */
  lemma OrdinaryChar(s: Scanner)
    requires Ready(s) && s.pos < |s.input|
    requires Plain(s.table, s.input[s.pos]) && !Has(Class(s.table, s.input[s.pos]), CT_COMMENT)
    requires !(s.input[s.pos] == SLASH && SlashOn(s.opts))
    ensures NextToken(s) == s.(sval := None, pos := s.pos + 1, ttype := s.input[s.pos])
  {
    VisibleStart(s);
  }

  // ----------------------------------------------------------------------
  // Whitespace and line counting

  /**
    The whitespace loop entered at the start of a blank run `w`: it ends
    at the first character of `rest`, or at the end of input, with the line
    counter raised by the line terminators of `w`.
   */
  lemma {:induction false} BlankRunEnds(t: Table, eolSig: bool, rd: Reader, w: seq<Code>, rest: seq<Code>, line: nat)
    requires rd.pos <= |rd.input| && rd.input[rd.pos..] == w + rest && w != []
    requires forall i :: 0 <= i < |w| ==> IsBlank(t, w[i])
    requires eolSig ==> forall i :: 0 <= i < |w| ==> !IsLineBreak(w[i])
    requires rest != [] ==> !IsBlank(t, rest[0]) && !(w[|w| - 1] == CR && rest[0] == LF)
    ensures Read(rd) == Reading(Chr(w[0]), Reader(rd.input, rd.pos + 1))
    ensures rest == [] ==>
      SkipBlanks(t, eolSig, w[0], Reader(rd.input, rd.pos + 1), line)
        == EolToken(Reader(rd.input, |rd.input|), line + Breaks(w), false)
    ensures rest != [] ==>
      SkipBlanks(t, eolSig, w[0], Reader(rd.input, rd.pos + 1), line)
        == Visible(rest[0], Reader(rd.input, rd.pos + |w| + 1), line + Breaks(w))
  {
    var rd1 := BlankRunHead(t, eolSig, rd, w, rest);
    SkipBlanksCountsLines(t, eolSig, w[0], rd1, line, w[1..], rest);
    assert [w[0]] + w[1..] == w;
  }

  /** The whitespace run `w` seen from the reader just past its first code. */
  lemma BlankRunHead(t: Table, eolSig: bool, rd: Reader, w: seq<Code>, rest: seq<Code>) returns (rd1: Reader)
    requires rd.pos <= |rd.input| && rd.input[rd.pos..] == w + rest && w != []
    requires forall i :: 0 <= i < |w| ==> IsBlank(t, w[i])
    requires eolSig ==> forall i :: 0 <= i < |w| ==> !IsLineBreak(w[i])
    requires rest != [] ==> !IsBlank(t, rest[0]) && !(w[|w| - 1] == CR && rest[0] == LF)
    ensures rd1 == Reader(rd.input, rd.pos + 1)
    ensures Read(rd) == Reading(Chr(w[0]), rd1)
    ensures BlankRun(t, eolSig, w[0], rd1, w[1..], rest)
  {
    rd1 := Reader(rd.input, rd.pos + 1);
    HeadOf(rd, w, rest);
    assert EndsWithCR(w[0], w[1..]) == (w[|w| - 1] == CR);
  }

  /**
    A run of whitespace `w` before a visible character is skipped as if it
    were absent, except that the line counter goes up by the number of line
    terminators in `w` (a CR-LF pair counting once). With significant line
    ends the run holds no CR or LF.
   */
  lemma {:induction false} BlanksAreSkipped(s: Scanner, w: seq<Code>, rest: seq<Code>)
    requires Ready(s) && s.pos <= |s.input| && s.input[s.pos..] == w + rest
    requires forall i :: 0 <= i < |w| ==> IsBlank(s.table, w[i])
    requires s.opts.eolIsSignificant ==> forall i :: 0 <= i < |w| ==> !IsLineBreak(w[i])
    requires rest != [] && !IsBlank(s.table, rest[0])
    requires !(w != [] && w[|w| - 1] == CR && rest[0] == LF)
    ensures NextToken(s) == NextToken(s.(pos := s.pos + |w|, lineno := s.lineno + Breaks(w)))
  {
    var s' := s.(pos := s.pos + |w|, lineno := s.lineno + Breaks(w));
    if w != [] {
      Advance(Cursor(s), w, rest, |w|);
      BlankRunEnds(s.table, s.opts.eolIsSignificant, Cursor(s), w, rest, s.lineno);
      var rd := Reader(s.input, s.pos + 1);
      var b := SkipBlanks(s.table, s.opts.eolIsSignificant, w[0], rd, s.lineno);
      StepAfterBlanks(s, w[0], rd, b);
      VisibleStart(s');
      assert s'.(sval := None, pos := s'.pos + 1) == s.(sval := None, pos := b.rd.pos, lineno := b.line);
      SameStep(s, s');
    } else {
      assert Breaks(w) == 0;
      assert s' == s;
    }
  }

  /** A pass whose whitespace loop ends at a visible character dispatches on that character. */
  lemma StepAfterBlanks(s: Scanner, c: Code, rd: Reader, b: Blank)
    requires Ready(s) && Read(Cursor(s)) == Reading(Chr(c), rd)
    requires SkipBlanks(s.table, s.opts.eolIsSignificant, c, rd, s.lineno) == b && b.Visible?
    ensures Step(s) == Dispatch(s.(sval := None, pos := b.rd.pos, lineno := b.line), b.c)
  {
  }

  /** Scanners whose next pass agrees scan the same token. */
  lemma SameStep(a: Scanner, b: Scanner)
    requires !a.pushedBack && !b.pushedBack && Step(a) == Step(b)
    ensures NextToken(a) == NextToken(b)
  {
    assert Scan(a) == match Step(a) case Done(r) => r case Again(x) => Scan(x);
  }

  /**
    Whitespace running into the end of input returns TT_EOL once, whether
    or not line ends are significant, with every line terminator counted;
    the next call returns TT_EOF.
   */
  lemma {:induction false} TrailingBlanks(s: Scanner, w: seq<Code>)
    requires Ready(s) && s.pos <= |s.input| && s.input[s.pos..] == w && w != []
    requires forall i :: 0 <= i < |w| ==> IsBlank(s.table, w[i])
    requires s.opts.eolIsSignificant ==> forall i :: 0 <= i < |w| ==> !IsLineBreak(w[i])
    ensures NextToken(s) == s.(sval := None, pos := |s.input|, lineno := s.lineno + Breaks(w), ttype := TT_EOL)
    ensures NextToken(NextToken(s)) == NextToken(s).(ttype := TT_EOF)
  {
    assert s.input[s.pos..] == w + [];
    BlankRunEnds(s.table, s.opts.eolIsSignificant, Cursor(s), w, [], s.lineno);
    EofStep(NextToken(s));
  }

  /**
    With significant line ends, blanks without CR or LF followed by a
    blank LF give TT_EOL just past the LF, with the LF counted.
   */
  lemma SignificantLf(s: Scanner, w: seq<Code>, rest: seq<Code>)
    requires Ready(s) && s.opts.eolIsSignificant
    requires s.pos <= |s.input| && s.input[s.pos..] == w + rest
    requires forall i :: 0 <= i < |w| ==> IsBlank(s.table, w[i]) && !IsLineBreak(w[i])
    requires rest != [] && rest[0] == LF && IsBlank(s.table, LF)
    ensures NextToken(s) == s.(sval := None, pos := s.pos + |w| + 1, lineno := s.lineno + 1, ttype := TT_EOL)
  {
    BlanksThenBreak(s, w, rest);
  }

  /**
    With significant line ends, blanks without CR or LF followed by a
    blank CR give TT_EOL just past the CR, with the CR counted, and the
    look-ahead is set to drop one LF that may follow.
   */
  lemma SignificantCr(s: Scanner, w: seq<Code>, rest: seq<Code>)
    requires Ready(s) && s.opts.eolIsSignificant
    requires s.pos <= |s.input| && s.input[s.pos..] == w + rest
    requires forall i :: 0 <= i < |w| ==> IsBlank(s.table, w[i]) && !IsLineBreak(w[i])
    requires rest != [] && rest[0] == CR && IsBlank(s.table, CR)
    ensures NextToken(s) == s.(sval := None, pos := s.pos + |w| + 1, lineno := s.lineno + 1, peek := SkipLF, ttype := TT_EOL)
  {
    BlanksThenBreak(s, w, rest);
  }

  /** The pass over blanks and a significant line terminator, for both kinds of terminator. */
  lemma BlanksThenBreak(s: Scanner, w: seq<Code>, rest: seq<Code>)
    requires Ready(s) && s.opts.eolIsSignificant
    requires s.pos <= |s.input| && s.input[s.pos..] == w + rest
    requires forall i :: 0 <= i < |w| ==> IsBlank(s.table, w[i]) && !IsLineBreak(w[i])
    requires rest != [] && IsLineBreak(rest[0]) && IsBlank(s.table, rest[0])
    ensures NextToken(s) == s.(sval := None, pos := s.pos + |w| + 1, lineno := s.lineno + 1,
                               peek := if rest[0] == CR then SkipLF else NeedChar, ttype := TT_EOL)
  {
    var rd1 := Reader(s.input, s.pos + 1);
    var r := s.(sval := None, pos := s.pos + |w| + 1, lineno := s.lineno + 1,
                peek := if rest[0] == CR then SkipLF else NeedChar, ttype := TT_EOL);
    if w == [] {
      HeadOf(Cursor(s), rest, []);
      assert Resolve(s.peek, Cursor(s)) == Reading(Chr(rest[0]), rd1);
    } else {
      HeadOf(Cursor(s), w, rest);
      assert Resolve(s.peek, Cursor(s)) == Reading(Chr(w[0]), rd1);
      SkipBlanksToBreak(s.table, w[0], rd1, s.lineno, w[1..], rest);
    }
    assert Step(s) == Done(r);
    DoneStep(s, r);
  }

  /**
    After a significant CR, the next call reads past one LF without
    counting it, then scans as usual; any other character is scanned as
    usual.
   */
  lemma SkipLfAbsorbsOneLf(s: Scanner)
    requires !s.pushedBack && s.peek == SkipLF && s.pos < |s.input|
    requires s.pos + (if s.input[s.pos] == LF then 1 else 0) < |s.input|
    ensures NextToken(s) == NextToken(s.(pos := s.pos + (if s.input[s.pos] == LF then 1 else 0), peek := NeedChar))
  {
    var s' := s.(pos := s.pos + (if s.input[s.pos] == LF then 1 else 0), peek := NeedChar);
    assert Read(Cursor(s)) == Reading(Chr(s.input[s.pos]), Reader(s.input, s.pos + 1));
    SameStart(s, s');
  }

  // ----------------------------------------------------------------------
  // Helpers: a pass that returns, a pass that starts over

  lemma DoneStep(s: Scanner, r: Scanner)
    requires !s.pushedBack && Step(s) == Done(r)
    ensures NextToken(s) == r
  {
  }

  /** After a comment the scan starts over from where the comment ended. */
  lemma AgainStep(s: Scanner, x: Scanner)
    requires !s.pushedBack && Step(s) == Again(x)
    ensures NextToken(s) == NextToken(x)
  {
  }

  /** A pass that starts over with the text cleared leads to the token of the scanner it started from. */
  lemma AgainClearsText(s: Scanner, x: Scanner)
    requires !s.pushedBack && Step(s) == Again(x.(sval := None))
    ensures NextToken(s) == NextToken(x)
  {
    AgainStep(s, x.(sval := None));
    TextIrrelevant(x);
  }

  /**
    A line comment ended by the line terminator at the head of `rest` (or
    by the end of input) leaves the terminator to the next pass, which
    continues as if the scan had started at it.
   */
  lemma {:induction false} AfterLineComment(s: Scanner, x: Scanner, q: nat, rest: seq<Code>)
    requires Ready(s) && q <= |s.input| && s.input[q..] == rest
    requires x == s.(sval := None, pos := q + (if rest == [] then 0 else 1), peek := Held(First(rest)))
    ensures rest != [] ==> NextToken(x) == NextToken(s.(pos := q))
    ensures rest == [] ==> NextToken(x) == s.(sval := None, pos := |s.input|, peek := Held(Eof), ttype := TT_EOF)
  {
    if rest != [] {
      assert s.input[q] == rest[0] by { assert s.input[q..][0] == rest[0]; }
      SameStart(x, s.(pos := q));
    } else {
      EofStep(x);
    }
  }

  /**
    A pass that ends in a line comment stopped at `e`, by the line
    terminator there or by the end of input, leads to the token scanned
    from `e`, or to TT_EOF.
   */
  lemma LineCommentRestart(s: Scanner, x: Scanner, e: nat)
    requires Ready(s) && Step(s) == Again(x) && e <= |s.input|
    requires x == s.(sval := None, pos := if e < |s.input| then e + 1 else e,
                     peek := Held(if e < |s.input| then Chr(s.input[e]) else Eof))
    ensures e < |s.input| ==> NextToken(s) == NextToken(s.(pos := e))
    ensures e == |s.input| ==> NextToken(s) == s.(sval := None, pos := |s.input|, peek := Held(Eof), ttype := TT_EOF)
  {
    AgainStep(s, x);
    AfterLineComment(s, x, e, s.input[e..]);
  }

  // ----------------------------------------------------------------------
  // Numbers

  /** The text of a numeral: an optional `-`, integer digits, and an optional `.` with fraction digits. */
  function NumeralText(neg: bool, ip: seq<Code>, dot: bool, fp: seq<Code>): seq<Code>
  {
    (if neg then [DASH] else []) + (ip + ((if dot then [DOT] else []) + fp))
  }

  /** The number branch entered at `s.pos`: a leading `-` is read past, then the digit loop runs. */
  lemma NumberStart(s: Scanner, neg: bool)
    requires s.pos + (if neg then 1 else 0) < |s.input|
    requires neg <==> s.input[s.pos] == DASH
    requires neg ==> IsDecimalDigit(s.input[s.pos + 1]) || s.input[s.pos + 1] == DOT
    ensures var d := Resume(Reader(s.input, s.pos + (if neg then 1 else 0)), 0, 0, false);
      NumberToken(s.(pos := s.pos + 1), s.input[s.pos])
        == s.(pos := d.rd.pos, peek := Held(d.stop), nval := Some(Numeral(neg, d.mantissa, d.scale)), ttype := TT_NUMBER)
  {
    assert Read(Reader(s.input, s.pos)) == Reading(Chr(s.input[s.pos]), Reader(s.input, s.pos + 1));
    if neg {
      assert Read(Reader(s.input, s.pos + 1)) == Reading(Chr(s.input[s.pos + 1]), Reader(s.input, s.pos + 2));
    }
  }

  /**
    A numeral starting with a DIGIT-class character is one number token:
    its value is the decimal value of all its digits, negated after a
    `-`, divided by ten to the number of digits after the `.`; the
    character after it is held as look-ahead. A second `.` ends the
    numeral like any other non-digit.
   */
  lemma {:induction false} NumberLiteral(s: Scanner, neg: bool, ip: seq<Code>, dot: bool, fp: seq<Code>, rest: seq<Code>)
    requires Ready(s) && s.pos <= |s.input| && s.input[s.pos..] == NumeralText(neg, ip, dot, fp) + rest
    requires AllDigits(ip) && AllDigits(fp) && (!dot ==> fp == []) && (ip != [] || dot)
    requires rest != [] ==> !IsDecimalDigit(rest[0]) && (dot || rest[0] != DOT)
    requires s.pos < |s.input| && !IsBlank(s.table, s.input[s.pos]) && Has(Class(s.table, s.input[s.pos]), CT_DIGIT)
    ensures AllDigits(ip + fp)
    ensures NextToken(s)
         == s.(sval := None,
               pos := s.pos + |NumeralText(neg, ip, dot, fp)| + (if rest == [] then 0 else 1),
               peek := Held(First(rest)),
               nval := Some(Numeral(neg, DecimalValue(ip + fp), |fp|)),
               ttype := TT_NUMBER)
  {
    var r := NumberPass(s, neg, ip, dot, fp, rest);
    DoneStep(s, r);
  }

  /** The pass of `NumberLiteral`: it returns the number token. */
  lemma {:induction false} NumberPass(s: Scanner, neg: bool, ip: seq<Code>, dot: bool, fp: seq<Code>, rest: seq<Code>) returns (r: Scanner)
    requires Ready(s) && s.pos <= |s.input| && s.input[s.pos..] == NumeralText(neg, ip, dot, fp) + rest
    requires AllDigits(ip) && AllDigits(fp) && (!dot ==> fp == []) && (ip != [] || dot)
    requires rest != [] ==> !IsDecimalDigit(rest[0]) && (dot || rest[0] != DOT)
    requires s.pos < |s.input| && !IsBlank(s.table, s.input[s.pos]) && Has(Class(s.table, s.input[s.pos]), CT_DIGIT)
    ensures AllDigits(ip + fp)
    ensures r == s.(sval := None,
                    pos := s.pos + |NumeralText(neg, ip, dot, fp)| + (if rest == [] then 0 else 1),
                    peek := Held(First(rest)),
                    nval := Some(Numeral(neg, DecimalValue(ip + fp), |fp|)),
                    ttype := TT_NUMBER)
    ensures Step(s) == Done(r)
  {
    var k := if neg then 1 else 0;
    NumeralLayout(s.input, s.pos, neg, ip, dot, fp, rest);
    var rd := Reader(s.input, s.pos + k);
    ScanNumeral(rd, ip, dot, fp, rest);
    NumberStart(s.(sval := None), neg);
    VisibleStart(s);
    r := NumberToken(s.(sval := None, pos := s.pos + 1), s.input[s.pos]);
  }

  /** Where the parts of a numeral sit in the input. */
  lemma NumeralLayout(input: seq<Code>, pos: nat, neg: bool, ip: seq<Code>, dot: bool, fp: seq<Code>, rest: seq<Code>)
    requires pos <= |input| && input[pos..] == NumeralText(neg, ip, dot, fp) + rest
    requires AllDigits(ip) && (ip != [] || dot)
    ensures var k := if neg then 1 else 0;
      pos + k < |input| &&
      input[pos + k..] == ip + ((if dot then [DOT] else []) + fp + rest) &&
      input[pos + k] == (if ip != [] then ip[0] else DOT) &&
      (neg <==> input[pos] == DASH)
  {
    var k := if neg then 1 else 0;
    var body := ip + ((if dot then [DOT] else []) + fp + rest);
    assert NumeralText(neg, ip, dot, fp) + rest == (if neg then [DASH] else []) + body;
    Advance(Reader(input, pos), if neg then [DASH] else [], body, k);
    Advance(Reader(input, pos), if neg then [DASH] else [], body, 0);
    assert body[0] == if ip != [] then ip[0] else DOT;
    assert ip != [] ==> IsDecimalDigit(ip[0]);
  }

  /**
    A `-` with the DIGIT class not followed by a digit or `.` is returned
    as the ordinary character `-`, the next character held as look-ahead.
   */
  lemma {:induction false} LoneDash(s: Scanner, rest: seq<Code>)
    requires Ready(s) && s.pos <= |s.input| && s.input[s.pos..] == [DASH] + rest
    requires !IsBlank(s.table, DASH) && Has(Class(s.table, DASH), CT_DIGIT)
    requires rest != [] ==> !IsDecimalDigit(rest[0]) && rest[0] != DOT
    ensures NextToken(s)
         == s.(sval := None, pos := s.pos + 1 + (if rest == [] then 0 else 1), peek := Held(First(rest)), ttype := DASH)
  {
    Advance(Cursor(s), [DASH], rest, 0);
    Advance(Cursor(s), [DASH], rest, 1);
    VisibleStart(s);
    var s1 := s.(sval := None, pos := s.pos + 1);
    assert Read(Cursor(s1)) == Reading(First(rest), Reader(s.input, s.pos + 1 + (if rest == [] then 0 else 1)));
    DoneStep(s, NumberToken(s1, DASH));
  }

  // ----------------------------------------------------------------------
  // Words

  /**
    A word starts with an ALPHA-class character that is not also a DIGIT
    (the number branch comes first) and runs through every following
    ALPHA or DIGIT character; its text is lowercased exactly in lowercase
    mode, and the character after it is held as look-ahead.
   */
  lemma {:induction false} WordLiteral(s: Scanner, w: seq<Code>, rest: seq<Code>)
    requires Ready(s) && s.pos <= |s.input| && s.input[s.pos..] == w + rest && w != []
    requires !IsBlank(s.table, w[0]) && !Has(Class(s.table, w[0]), CT_DIGIT) && Has(Class(s.table, w[0]), CT_ALPHA)
    requires forall i :: 1 <= i < |w| ==> IsWordPart(s.table, w[i])
    requires rest != [] ==> !IsWordPart(s.table, rest[0])
    ensures NextToken(s)
         == s.(sval := Some(if s.opts.lowerCaseMode then LowerCase(w) else w),
               pos := s.pos + |w| + (if rest == [] then 0 else 1),
               peek := Held(First(rest)),
               ttype := TT_WORD)
  {
    Advance(Cursor(s), w, rest, 0);
    VisibleStart(s);
    WordRun(s.(sval := None, pos := s.pos + 1), w, rest);
    DoneStep(s, WordToken(s.(sval := None, pos := s.pos + 1), w[0]));
  }

  /** The word loop over the rest of `w`, the cursor just after its first character. */
  lemma {:induction false} WordRun(s: Scanner, w: seq<Code>, rest: seq<Code>)
    requires 1 <= s.pos <= |s.input| && w != [] && s.input[s.pos - 1..] == w + rest
    requires forall i :: 1 <= i < |w| ==> IsWordPart(s.table, w[i])
    requires rest != [] ==> !IsWordPart(s.table, rest[0])
    ensures WordToken(s, w[0])
         == s.(sval := Some(if s.opts.lowerCaseMode then LowerCase(w) else w),
               pos := s.pos - 1 + |w| + (if rest == [] then 0 else 1),
               peek := Held(First(rest)),
               ttype := TT_WORD)
  {
    var rd := Reader(s.input, s.pos - 1);
    Advance(rd, w, rest, 1);
    assert forall i :: 0 <= i < |w[1..]| ==> IsWordPart(s.table, w[1..][i]);
    ScanWordRun(s.table, [w[0]], Cursor(s), w[1..], rest);
    assert [w[0]] + w[1..] == w;
  }

  // ----------------------------------------------------------------------
  // Quoted strings

  /**
    A quoted string whose body is the escaped spelling of `text` yields
    `text` with the opening quote as the token type. It ends at the same
    quote, which is consumed, or at a CR, LF or end of input, which is held
    as look-ahead.
   */
  lemma {:induction false} QuotedLiteral(s: Scanner, q: Code, text: seq<Code>, rest: seq<Code>)
    requires q < 256 && q != BACKSLASH
    requires Ready(s) && s.pos <= |s.input| && s.input[s.pos..] == [q] + (Escape(q, text) + rest)
    requires !IsBlank(s.table, q) && !Has(Class(s.table, q), CT_DIGIT) && !Has(Class(s.table, q), CT_ALPHA)
    requires Has(Class(s.table, q), CT_QUOTE)
    requires EndsString(q, First(rest))
    ensures NextToken(s)
         == s.(sval := Some(text),
               pos := s.pos + 1 + |Escape(q, text)| + (if rest == [] then 0 else 1),
               peek := if First(rest) == Chr(q) then NeedChar else Held(First(rest)),
               ttype := q)
  {
    var r := QuotedPass(s, q, text, rest);
    DoneStep(s, r);
  }

  /** The pass of `QuotedLiteral`: it returns the string token. */
  lemma {:induction false} QuotedPass(s: Scanner, q: Code, text: seq<Code>, rest: seq<Code>) returns (r: Scanner)
    requires q < 256 && q != BACKSLASH
    requires Ready(s) && s.pos <= |s.input| && s.input[s.pos..] == [q] + (Escape(q, text) + rest)
    requires !IsBlank(s.table, q) && !Has(Class(s.table, q), CT_DIGIT) && !Has(Class(s.table, q), CT_ALPHA)
    requires Has(Class(s.table, q), CT_QUOTE)
    requires EndsString(q, First(rest))
    ensures r == s.(sval := Some(text),
                    pos := s.pos + 1 + |Escape(q, text)| + (if rest == [] then 0 else 1),
                    peek := if First(rest) == Chr(q) then NeedChar else Held(First(rest)),
                    ttype := q)
    ensures Step(s) == Done(r)
  {
    Advance(Cursor(s), [q], Escape(q, text) + rest, 0);
    Advance(Cursor(s), [q], Escape(q, text) + rest, 1);
    VisibleStart(s);
    var s1 := s.(sval := None, pos := s.pos + 1);
    ScanQuotedEscape(q, Cursor(s1), [], text, rest);
    assert [] + text == text;
    r := QuotedToken(s1, q);
  }

  // ----------------------------------------------------------------------
  // Comments and slashes

  /**
    A COMMENT-class character at `s.pos` starts a comment that runs up to
    `e`, the next CR or LF or the end of input; scanning then goes on from
    that terminator, or returns TT_EOF at the end of input.
   */
  lemma {:induction false} CommentCharSkipped(s: Scanner, e: nat)
    requires Ready(s) && s.pos < e <= |s.input|
    requires Plain(s.table, s.input[s.pos]) && Has(Class(s.table, s.input[s.pos]), CT_COMMENT)
    requires !(s.input[s.pos] == SLASH && SlashOn(s.opts))
    requires forall i :: s.pos < i < e ==> !IsLineBreak(s.input[i])
    requires e < |s.input| ==> IsLineBreak(s.input[e])
    ensures e < |s.input| ==> NextToken(s) == NextToken(s.(pos := e))
    ensures e == |s.input| ==> NextToken(s) == s.(sval := None, pos := |s.input|, peek := Held(Eof), ttype := TT_EOF)
  {
    var x := CommentCharSpan(s, e);
    LineCommentRestart(s, x, e);
  }

  /** The pass over a comment from a COMMENT-class character at `s.pos` up to `e`. */
  lemma CommentCharSpan(s: Scanner, e: nat) returns (x: Scanner)
    requires Ready(s) && s.pos < e <= |s.input|
    requires Plain(s.table, s.input[s.pos]) && Has(Class(s.table, s.input[s.pos]), CT_COMMENT)
    requires !(s.input[s.pos] == SLASH && SlashOn(s.opts))
    requires forall i :: s.pos < i < e ==> !IsLineBreak(s.input[i])
    requires e < |s.input| ==> IsLineBreak(s.input[e])
    ensures x == s.(sval := None, pos := if e < |s.input| then e + 1 else e,
                    peek := Held(if e < |s.input| then Chr(s.input[e]) else Eof))
    ensures Step(s) == Again(x)
  {
    var c, b, rest := s.input[s.pos], s.input[s.pos + 1..e], s.input[e..];
    assert s.input[s.pos..] == [c] + (b + rest);
    var q;
    q, x := CommentCharLine(s, c, b, rest);
  }

  /** The pass over a comment started by a COMMENT-class character, laid out as text. */
  lemma {:induction false} CommentCharLine(s: Scanner, c: Code, b: seq<Code>, rest: seq<Code>) returns (q: nat, x: Scanner)
    requires Ready(s) && s.pos <= |s.input| && s.input[s.pos..] == [c] + (b + rest)
    requires Plain(s.table, c) && Has(Class(s.table, c), CT_COMMENT) && !(c == SLASH && SlashOn(s.opts))
    requires forall i :: 0 <= i < |b| ==> !IsLineBreak(b[i])
    requires rest != [] ==> IsLineBreak(rest[0])
    ensures q == s.pos + 1 + |b| && q <= |s.input| && s.input[q..] == rest
    ensures x == s.(sval := None, pos := q + (if rest == [] then 0 else 1), peek := Held(First(rest)))
    ensures Step(s) == Again(x)
  {
    q := s.pos + 1 + |b|;
    x := s.(sval := None, pos := q + (if rest == [] then 0 else 1), peek := Held(First(rest)));
    var rd := Reader(s.input, s.pos + 1);
    Lead1(Cursor(s), c, b + rest);
    SkipToLineEndRun(rd, b, rest);
    Behind(rd, b, rest);
    CommentPass(s, SkipToLineEnd(rd));
  }

  /** A pass over a COMMENT-class character ends where the line comment ends. */
  lemma CommentPass(s: Scanner, e: Reading)
    requires Ready(s) && s.pos < |s.input|
    requires Plain(s.table, s.input[s.pos]) && Has(Class(s.table, s.input[s.pos]), CT_COMMENT)
    requires !(s.input[s.pos] == SLASH && SlashOn(s.opts))
    requires SkipToLineEnd(Reader(s.input, s.pos + 1)) == e
    ensures Step(s) == Again(s.(sval := None, pos := e.rd.pos, peek := Held(e.ch)))
  {
    VisibleStart(s);
  }

  /** A visible `/` with a slash comment style on goes to the slash branch. */
  lemma SlashStart(s: Scanner)
    requires Ready(s) && s.pos < |s.input| && s.input[s.pos] == SLASH
    requires Plain(s.table, SLASH) && SlashOn(s.opts)
    ensures Step(s) == SlashToken(s.(sval := None, pos := s.pos + 1))
  {
    VisibleStart(s);
  }

  /** A pass over `//` with slash-slash comments on ends where the line comment ends. */
  lemma SlashSlashPass(s: Scanner, e: Reading)
    requires Ready(s) && s.opts.slashSlashComments && Plain(s.table, SLASH)
    requires s.pos + 1 < |s.input| && s.input[s.pos] == SLASH && s.input[s.pos + 1] == SLASH
    requires SkipToLineEnd(Reader(s.input, s.pos + 2)) == e
    ensures Step(s) == Again(s.(sval := None, pos := e.rd.pos, peek := Held(e.ch)))
  {
    SlashStart(s);
    var s1 := s.(sval := None, pos := s.pos + 1);
    assert Read(Cursor(s1)) == Reading(Chr(SLASH), Reader(s.input, s.pos + 2));
  }

  /** A pass over `/` `*` with block comments on: the block comment loop decides how it ends. */
  lemma SlashStarPass(s: Scanner, blk: Block)
    requires Ready(s) && s.opts.slashStarComments && Plain(s.table, SLASH)
    requires s.pos + 1 < |s.input| && s.input[s.pos] == SLASH && s.input[s.pos + 1] == STAR
    requires SkipBlockComment(Reader(s.input, s.pos + 2), 0, s.lineno) == blk
    ensures blk.Closed? ==> Step(s) == Again(s.(sval := None, pos := blk.rd.pos, lineno := blk.line))
    ensures blk.Unclosed? ==> Step(s) == Done(s.(sval := None, pos := blk.rd.pos, lineno := blk.line, ttype := TT_EOF))
  {
    SlashStart(s);
    var s1 := s.(sval := None, pos := s.pos + 1);
    assert Read(Cursor(s1)) == Reading(Chr(STAR), Reader(s.input, s.pos + 2));
  }

  /**
    With slash-slash comments on, `//` at `s.pos` starts a comment that
    runs up to `e`, the next CR or LF or the end of input; scanning then
    goes on from that terminator, or returns TT_EOF at the end of input.
   */
  lemma {:induction false} SlashSlashSkipped(s: Scanner, e: nat)
    requires Ready(s) && s.opts.slashSlashComments && Plain(s.table, SLASH)
    requires s.pos + 2 <= e <= |s.input| && s.input[s.pos] == SLASH && s.input[s.pos + 1] == SLASH
    requires forall i :: s.pos + 2 <= i < e ==> !IsLineBreak(s.input[i])
    requires e < |s.input| ==> IsLineBreak(s.input[e])
    ensures e < |s.input| ==> NextToken(s) == NextToken(s.(pos := e))
    ensures e == |s.input| ==> NextToken(s) == s.(sval := None, pos := |s.input|, peek := Held(Eof), ttype := TT_EOF)
  {
    var x := SlashSlashSpan(s, e);
    LineCommentRestart(s, x, e);
  }

  /** The pass over a `//` comment from `s.pos` up to `e`. */
  lemma SlashSlashSpan(s: Scanner, e: nat) returns (x: Scanner)
    requires Ready(s) && s.opts.slashSlashComments && Plain(s.table, SLASH)
    requires s.pos + 2 <= e <= |s.input| && s.input[s.pos] == SLASH && s.input[s.pos + 1] == SLASH
    requires forall i :: s.pos + 2 <= i < e ==> !IsLineBreak(s.input[i])
    requires e < |s.input| ==> IsLineBreak(s.input[e])
    ensures x == s.(sval := None, pos := if e < |s.input| then e + 1 else e,
                    peek := Held(if e < |s.input| then Chr(s.input[e]) else Eof))
    ensures Step(s) == Again(x)
  {
    var b, rest := s.input[s.pos + 2..e], s.input[e..];
    assert s.input[s.pos..] == [SLASH, SLASH] + (b + rest);
    var q;
    q, x := SlashSlashLine(s, b, rest);
  }

  /** The pass over a `//` comment, laid out as text. */
  lemma {:induction false} SlashSlashLine(s: Scanner, b: seq<Code>, rest: seq<Code>) returns (q: nat, x: Scanner)
    requires Ready(s) && s.opts.slashSlashComments && Plain(s.table, SLASH)
    requires s.pos <= |s.input| && s.input[s.pos..] == [SLASH, SLASH] + (b + rest)
    requires forall i :: 0 <= i < |b| ==> !IsLineBreak(b[i])
    requires rest != [] ==> IsLineBreak(rest[0])
    ensures q == s.pos + 2 + |b| && q <= |s.input| && s.input[q..] == rest
    ensures x == s.(sval := None, pos := q + (if rest == [] then 0 else 1), peek := Held(First(rest)))
    ensures Step(s) == Again(x)
  {
    q := s.pos + 2 + |b|;
    x := s.(sval := None, pos := q + (if rest == [] then 0 else 1), peek := Held(First(rest)));
    var rd := Reader(s.input, s.pos + 2);
    Lead2(Cursor(s), SLASH, SLASH, b + rest);
    SkipToLineEndRun(rd, b, rest);
    Behind(rd, b, rest);
    SlashSlashPass(s, SkipToLineEnd(rd));
  }

  /**
    With block comments on, a comment `/` `*` b `*` `/` whose text `b`
    holds no closing pair is skipped as if absent, except that the line
    counter goes up once per line terminator in `b`.
   */
  lemma {:induction false} BlockCommentSkipped(s: Scanner, b: seq<Code>, rest: seq<Code>)
    requires Ready(s) && s.opts.slashStarComments && Plain(s.table, SLASH)
    requires s.pos <= |s.input| && s.input[s.pos..] == [SLASH, STAR] + (b + [STAR, SLASH] + rest)
    requires NoClose(0, b)
    ensures NextToken(s) == NextToken(s.(pos := s.pos + |b| + 4, lineno := s.lineno + Breaks(b)))
  {
    BlockCommentPass(s, b, rest);
    AgainClearsText(s, s.(pos := s.pos + |b| + 4, lineno := s.lineno + Breaks(b)));
  }

  /** The pass over a closed block comment, laid out as text. */
  lemma {:induction false} BlockCommentPass(s: Scanner, b: seq<Code>, rest: seq<Code>)
    requires Ready(s) && s.opts.slashStarComments && Plain(s.table, SLASH)
    requires s.pos <= |s.input| && s.input[s.pos..] == [SLASH, STAR] + (b + [STAR, SLASH] + rest)
    requires NoClose(0, b)
    ensures Step(s) == Again(s.(pos := s.pos + |b| + 4, lineno := s.lineno + Breaks(b)).(sval := None))
  {
    var rd := Reader(s.input, s.pos + 2);
    Lead2(Cursor(s), SLASH, STAR, b + [STAR, SLASH] + rest);
    SkipBlockCommentRun(rd, 0, s.lineno, b, rest);
    SlashStarPass(s, SkipBlockComment(rd, 0, s.lineno));
  }

  /**
    With block comments on, a comment that is never closed runs to the end
    of input, counting its line terminators, and TT_EOF is returned.
   */
  lemma {:induction false} BlockCommentUnclosed(s: Scanner, b: seq<Code>)
    requires Ready(s) && s.opts.slashStarComments && Plain(s.table, SLASH)
    requires s.pos <= |s.input| && s.input[s.pos..] == [SLASH, STAR] + b
    requires NoClose(0, b)
    ensures NextToken(s) == s.(sval := None, pos := |s.input|, lineno := s.lineno + Breaks(b), ttype := TT_EOF)
  {
    var rd := Reader(s.input, s.pos + 2);
    Lead2(Cursor(s), SLASH, STAR, b);
    SkipBlockCommentUnclosed(rd, 0, s.lineno);
    SlashStarPass(s, SkipBlockComment(rd, 0, s.lineno));
    DoneStep(s, s.(sval := None, pos := |s.input|, lineno := s.lineno + Breaks(b), ttype := TT_EOF));
  }

  /**
    With either slash comment style on, a `/` that does not open an enabled
    comment is returned as `/`, the next character held as look-ahead. This
    holds even when `/` has the COMMENT class: the source's comment-class
    test for `/` indexes the table with a string and never succeeds.
   */
  lemma {:induction false} SlashAlone(s: Scanner, rest: seq<Code>)
    requires Ready(s) && SlashOn(s.opts) && Plain(s.table, SLASH)
    requires s.pos <= |s.input| && s.input[s.pos..] == [SLASH] + rest
    requires rest != [] && rest[0] == STAR ==> !s.opts.slashStarComments
    requires rest != [] && rest[0] == SLASH ==> !s.opts.slashSlashComments
    ensures NextToken(s)
         == s.(sval := None, pos := s.pos + 1 + (if rest == [] then 0 else 1), peek := Held(First(rest)), ttype := SLASH)
  {
    Lead1(Cursor(s), SLASH, rest);
    SlashStart(s);
    var s1 := s.(sval := None, pos := s.pos + 1);
    assert Read(Cursor(s1)) == Reading(First(rest), Reader(s.input, s.pos + 1 + (if rest == [] then 0 else 1)));
    DoneStep(s, s.(sval := None, pos := s.pos + 1 + (if rest == [] then 0 else 1), peek := Held(First(rest)), ttype := SLASH));
  }
}
