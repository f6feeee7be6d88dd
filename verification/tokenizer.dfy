/**
  The stream tokenizer: its state, the option setters, `nextToken`,
  `pushBack` and `lineno`.

  The object's mutable fields become the immutable `Scanner` record, and
  each public method a function from the old record to the new one. The
  token `nextToken` returns is the `ttype` of the resulting record.
 */
module Tokenizer {
  import opened Chars
  import opened SyntaxTable
  import opened Lexemes

  datatype Option<T> = None | Some(value: T)

  const TT_EOF: int := -1
  const TT_EOL: int := 10
  const TT_NUMBER: int := -2
  const TT_WORD: int := -3
  const TT_NOTHING: int := -4

  /**
    The one-character look-ahead (`peekc`): read a fresh character, read
    one and drop it when it is an LF (after a significant CR), or use the
    character already read. `Held(Eof)` behaves like `NeedChar`.
   */
  datatype Peek = NeedChar | SkipLF | Held(ch: Ch)

  predicate HeldChar(p: Peek)
  {
    p.Held? && p.ch.Chr?
  }

  datatype Options = Options(
    eolIsSignificant: bool,
    slashSlashComments: bool,
    slashStarComments: bool,
    lowerCaseMode: bool)

  /** The tokenizer's state; `sval` and `nval` are `None` while unset. */
  datatype Scanner = Scanner(
    table: Table,
    opts: Options,
    input: seq<Code>,
    pos: nat,
    peek: Peek,
    lineno: nat,
    pushedBack: bool,
    ttype: int,
    sval: Option<seq<Code>>,
    nval: Option<Numeral>)

  function Cursor(s: Scanner): Reader
  {
    Reader(s.input, s.pos)
  }

  /** A freshly constructed tokenizer: an all-zero table, every option off, line 1. */
  function Init(input: seq<Code>): (s: Scanner)
    ensures s.input == input && s.pos == 0 && s.lineno == 1
    ensures forall i :: 0 <= i < SIZE ==> s.table[i] == 0
    ensures !s.opts.eolIsSignificant && !s.opts.slashSlashComments
    ensures !s.opts.slashStarComments && !s.opts.lowerCaseMode
    ensures s.ttype == TT_NOTHING && !s.pushedBack && s.peek == NeedChar
    ensures s.sval.None? && s.nval.None?
  {
    Scanner(ResetSyntax(), Options(false, false, false, false), input, 0, NeedChar, 1, false, TT_NOTHING, None, None)
  }

  // ----------------------------------------------------------------------
  // Option setters; each changes its own flag and nothing else

  function EolIsSignificant(s: Scanner, flag: bool): (r: Scanner)
    ensures r.opts.eolIsSignificant == flag
    ensures r == s.(opts := r.opts) && r.opts == s.opts.(eolIsSignificant := flag)
  {
    s.(opts := s.opts.(eolIsSignificant := flag))
  }

  function SlashStarComments(s: Scanner, flag: bool): (r: Scanner)
    ensures r.opts.slashStarComments == flag
    ensures r == s.(opts := r.opts) && r.opts == s.opts.(slashStarComments := flag)
  {
    s.(opts := s.opts.(slashStarComments := flag))
  }

  function SlashSlashComments(s: Scanner, flag: bool): (r: Scanner)
    ensures r.opts.slashSlashComments == flag
    ensures r == s.(opts := r.opts) && r.opts == s.opts.(slashSlashComments := flag)
  {
    s.(opts := s.opts.(slashSlashComments := flag))
  }

  function LowerCaseMode(s: Scanner, flag: bool): (r: Scanner)
    ensures r.opts.lowerCaseMode == flag
    ensures r == s.(opts := r.opts) && r.opts == s.opts.(lowerCaseMode := flag)
  {
    s.(opts := s.opts.(lowerCaseMode := flag))
  }

  // ----------------------------------------------------------------------
  // nextToken

  /**
    Obtain the first character of a token from the look-ahead: a held
    character is used as is; otherwise one is read, and after a
    significant CR a following LF is read past.
   */
  function Resolve(peek: Peek, rd: Reader): (r: Reading)
    ensures r.rd.input == rd.input && r.rd.pos >= rd.pos
    ensures HeldChar(peek) ==> r == Reading(peek.ch, rd)
    ensures r.ch.Eof? ==> !HeldChar(peek) && Remaining(r.rd) == 0
    ensures r.ch.Chr? ==> Remaining(r.rd) + 1 <= Remaining(rd) + (if HeldChar(peek) then 1 else 0)
    ensures peek == SkipLF && rd.pos < |rd.input| && rd.input[rd.pos] == LF ==> r == Read(Reader(rd.input, rd.pos + 1))
    ensures peek == NeedChar ==> r == Read(rd)
  {
    match peek
    case Held(ch) => if ch.Chr? then Reading(ch, rd) else Read(rd)
    case NeedChar => Read(rd)
    case SkipLF =>
      var n := Read(rd);
      if n.ch == Chr(LF) then Read(n.rd) else n
  }

  /** Termination measure of `nextToken`: unread input plus a held character. */
  function Measure(s: Scanner): nat
  {
    Remaining(Cursor(s)) + (if HeldChar(s.peek) then 1 else 0)
  }

  /** What one pass of `nextToken` does: return a token, or skip a comment and start over. */
  datatype Pass = Done(s: Scanner) | Again(s: Scanner)

  /**
    What a returned token promises. `ttype` is never TT_NOTHING; a word
    has its text, and text is set only for words and quoted strings; a
    number has its value; a word is lowercase in lowercase mode; end of
    input is reported only when all input is consumed and no character is
    held back.
   */
  predicate Token(r: Scanner)
  {
    && r.ttype != TT_NOTHING
    && (r.ttype == TT_WORD ==> r.sval.Some?)
    && (r.sval.Some? ==> r.ttype == TT_WORD || (0 <= r.ttype < 0x1_0000 && Has(Class(r.table, r.ttype), CT_QUOTE)))
    && (r.ttype == TT_NUMBER ==> r.nval.Some?)
    && (r.ttype == TT_WORD && r.opts.lowerCaseMode ==>
          forall i :: 0 <= i < |r.sval.value| ==> !('A' as int <= r.sval.value[i] <= 'Z' as int))
    && (r.ttype == TT_EOF ==> Remaining(Cursor(r)) == 0 && !HeldChar(r.peek))
  }

  /** The fields `nextToken` never changes. */
  predicate Keeps(r: Scanner, s: Scanner)
  {
    r.input == s.input && r.table == s.table && r.opts == s.opts && r.pushedBack == s.pushedBack
  }

  /** The number branch: a lone `-` is an ordinary character; otherwise the digit loop. */
  function NumberToken(s: Scanner, c: Code): (r: Scanner)
    ensures Keeps(r, s) && r.pos >= s.pos && r.lineno == s.lineno && r.sval == s.sval
    ensures r.ttype == TT_NUMBER || (c == DASH && r.ttype == DASH && r.nval == s.nval)
    ensures r.ttype == TT_NUMBER ==> r.nval.Some?
    ensures !HeldChar(r.peek) ==> Remaining(Cursor(r)) == 0
  {
    var rd := Cursor(s);
    if c == DASH then
      var n := Read(rd);
      if !(n.ch.Chr? && (n.ch.code == DOT || IsDecimalDigit(n.ch.code))) then
        s.(pos := n.rd.pos, peek := Held(n.ch), ttype := DASH)
      else NumberValue(s, true, n.ch, n.rd)
    else NumberValue(s, false, Chr(c), rd)
  }

  function NumberValue(s: Scanner, neg: bool, ch: Ch, rd: Reader): (r: Scanner)
    requires rd.input == s.input && rd.pos >= s.pos
    requires ch.Eof? ==> Remaining(rd) == 0
    ensures Keeps(r, s) && r.pos >= rd.pos && r.lineno == s.lineno && r.sval == s.sval
    ensures r.ttype == TT_NUMBER && r.nval.Some? && r.nval.value.neg == neg
    ensures r.peek.Held? && !(r.peek.ch.Chr? && IsDecimalDigit(r.peek.ch.code))
    ensures !HeldChar(r.peek) ==> Remaining(Cursor(r)) == 0
  {
    var d := ScanDigits(ch, rd, 0, 0, false);
    s.(pos := d.rd.pos, peek := Held(d.stop), nval := Some(Numeral(neg, d.mantissa, d.scale)), ttype := TT_NUMBER)
  }

  /** The word branch: the word loop, then lowercasing in lowercase mode. */
  function WordToken(s: Scanner, c: Code): (r: Scanner)
    ensures Keeps(r, s) && r.pos >= s.pos && r.lineno == s.lineno && r.nval == s.nval
    ensures r.ttype == TT_WORD && r.sval.Some? && |r.sval.value| >= 1
    ensures r.opts.lowerCaseMode ==> forall i :: 0 <= i < |r.sval.value| ==> !('A' as int <= r.sval.value[i] <= 'Z' as int)
    ensures r.peek.Held? && (r.peek.ch.Chr? ==> !IsWordPart(s.table, r.peek.ch.code))
    ensures r.peek.ch.Eof? ==> Remaining(Cursor(r)) == 0
  {
    var w := ScanWord(s.table, [c], Cursor(s));
    var text := if s.opts.lowerCaseMode then LowerCase(w.text) else w.text;
    s.(pos := w.rd.pos, peek := Held(w.stop), sval := Some(text), ttype := TT_WORD)
  }

  /** The quote branch: the string loop; a closing quote is consumed, any other stop is held. */
  function QuotedToken(s: Scanner, q: Code): (r: Scanner)
    ensures Keeps(r, s) && r.pos >= s.pos && r.lineno == s.lineno && r.nval == s.nval
    ensures r.ttype == q && r.sval.Some?
    ensures r.peek == NeedChar || (r.peek.Held? && EndsString(q, r.peek.ch) && r.peek.ch != Chr(q))
    ensures !HeldChar(r.peek) && r.peek != NeedChar ==> Remaining(Cursor(r)) == 0
  {
    var n := Read(Cursor(s));
    var r := ScanQuoted(q, n.ch, n.rd, []);
    s.(pos := r.rd.pos, peek := if r.stop == Chr(q) then NeedChar else Held(r.stop), sval := Some(r.text), ttype := q)
  }

  /**
    A `/` while `//` or block comments are enabled: skip the comment that
    follows and start over, or report end of input inside an unclosed
    block comment; otherwise `/` is an ordinary character even when it has
    the COMMENT class, because the source's test `ct["/"]` indexes the
    table with a string and is never true.
   */
  function SlashToken(s: Scanner): (r: Pass)
    ensures Keeps(r.s, s) && r.s.pos >= s.pos && r.s.lineno >= s.lineno && r.s.sval == s.sval && r.s.nval == s.nval
    ensures r.Again? ==> Measure(r.s) <= Remaining(Cursor(s)) && r.s.ttype == s.ttype
    ensures r.Done? ==> r.s.ttype == SLASH || r.s.ttype == TT_EOF
    ensures r.Done? && r.s.ttype == TT_EOF ==> Remaining(Cursor(r.s)) == 0 && r.s.peek == s.peek
    ensures r.Done? && r.s.ttype == SLASH ==> r.s.peek.Held? && (r.s.peek.ch.Eof? ==> Remaining(Cursor(r.s)) == 0)
  {
    var n := Read(Cursor(s));
    if n.ch == Chr(STAR) && s.opts.slashStarComments then
      match SkipBlockComment(n.rd, 0, s.lineno)
      case Closed(rd, line) => Again(s.(pos := rd.pos, lineno := line))
      case Unclosed(rd, line) => Done(s.(pos := rd.pos, lineno := line, ttype := TT_EOF))
    else if n.ch == Chr(SLASH) && s.opts.slashSlashComments then
      var e := SkipToLineEnd(n.rd);
      Again(s.(pos := e.rd.pos, peek := Held(e.ch)))
    else Done(s.(pos := n.rd.pos, peek := Held(n.ch), ttype := SLASH))
  }

  /**
    Dispatch on the class of the first visible character `c`, the cursor
    being just after it: number, word, quoted string, slash comment,
    comment character, or an ordinary character, in that order.
   */
  function Dispatch(s: Scanner, c: Code): (r: Pass)
    requires s.sval.None? && s.peek == NeedChar
    ensures Keeps(r.s, s) && r.s.pos >= s.pos && r.s.lineno >= s.lineno
    ensures r.Again? ==> Measure(r.s) <= Remaining(Cursor(s)) && r.s.nval == s.nval
    ensures r.Done? ==> Token(r.s)
    ensures r.Done? && r.s.nval != s.nval ==> r.s.ttype == TT_NUMBER
    ensures r.Done? && !Has(Class(s.table, c), CT_DIGIT | CT_ALPHA | CT_QUOTE | CT_COMMENT)
              && !(c == SLASH && (s.opts.slashSlashComments || s.opts.slashStarComments))
            ==> r.s == s.(ttype := c)
  {
    var ctype := Class(s.table, c);
    if Has(ctype, CT_DIGIT) then Done(NumberToken(s, c))
    else if Has(ctype, CT_ALPHA) then Done(WordToken(s, c))
    else if Has(ctype, CT_QUOTE) then Done(QuotedToken(s, c))
    else if c == SLASH && (s.opts.slashSlashComments || s.opts.slashStarComments) then SlashToken(s)
    else if Has(ctype, CT_COMMENT) then
      var e := SkipToLineEnd(Cursor(s));
      Again(s.(pos := e.rd.pos, peek := Held(e.ch)))
    else Done(s.(ttype := c))
  }

  /**
    One pass of `nextToken` (without the push-back check): clear `sval`,
    take the first character, run the whitespace loop, then dispatch.
   */
  function Step(s: Scanner): (r: Pass)
    ensures Keeps(r.s, s) && r.s.pos >= s.pos && r.s.lineno >= s.lineno
    ensures r.Again? ==> Measure(r.s) < Measure(s) && r.s.nval == s.nval
    ensures r.Done? ==> Token(r.s)
    ensures r.Done? && r.s.nval != s.nval ==> r.s.ttype == TT_NUMBER
  {
    var s0 := s.(sval := None);
    var first := Resolve(s.peek, Cursor(s));
    match first.ch
    case Eof => Done(s0.(pos := first.rd.pos, ttype := TT_EOF))
    case Chr(c) =>
      match SkipBlanks(s.table, s.opts.eolIsSignificant, c, first.rd, s.lineno)
      case EolToken(rd, line, skipLF) =>
        Done(s0.(pos := rd.pos, lineno := line, peek := if skipLF then SkipLF else NeedChar, ttype := TT_EOL))
      case Visible(c', rd, line) => Dispatch(s0.(pos := rd.pos, lineno := line, peek := NeedChar), c')
  }

  /** `nextToken` without the push-back check: passes until one returns a token. */
  function Scan(s: Scanner): (r: Scanner)
    ensures Keeps(r, s) && r.pos >= s.pos && r.lineno >= s.lineno
    ensures Token(r)
    ensures r.nval != s.nval ==> r.ttype == TT_NUMBER
    decreases Measure(s)
  {
    match Step(s)
    case Done(r) => r
    case Again(s') => Scan(s')
  }

  /** `nextToken`: a pushed-back token is returned again unchanged; otherwise scan a new one. */
  function NextToken(s: Scanner): (r: Scanner)
    ensures !r.pushedBack
    ensures s.pushedBack ==> r == s.(pushedBack := false)
    ensures !s.pushedBack ==> Token(r) && r.pos >= s.pos && r.lineno >= s.lineno
    ensures r.input == s.input && r.table == s.table && r.opts == s.opts
    ensures r.nval != s.nval ==> r.ttype == TT_NUMBER
  {
    if s.pushedBack then s.(pushedBack := false) else Scan(s)
  }

  /** `pushBack`: arm the replay of the current token, unless no token was read yet. */
  function PushBack(s: Scanner): (r: Scanner)
    ensures s.ttype == TT_NOTHING ==> r == s
    ensures s.ttype != TT_NOTHING ==> r == s.(pushedBack := true)
  {
    if s.ttype != TT_NOTHING then s.(pushedBack := true) else s
  }

  /** `lineno`: the current line number. */
  function Lineno(s: Scanner): (n: nat)
    ensures n == s.lineno
  {
    s.lineno
  }
}
