/**
  The block comment loop of `nextToken` exactly as the source writes it
  (tokenizer.ts, lines 384-399), kept beside the corrected loop
  `Lexemes.SkipBlockComment` that the tokenizer uses.

  After a line terminator the source reads the next character and makes
  it the previous character without examining it, so a line terminator
  directly after another one can go uncounted. `SkipBlockCommentRun` gives
  the count of the loop as written for every comment, `WrittenBreaksExact`
  says exactly when it agrees with the corrected count, and
  `SecondBreakUncounted` shows the smallest comment where it does not.
 */
module BlockCommentAsWritten {
  import opened Chars
  import opened Lexemes

  /**
    The block comment loop as the source writes it, `prev` being the
    previously read code (0 at the start). A CR, LF or CR-LF raises the
    line counter and the character after it is read in its place: that
    character is never examined as a line terminator nor as the `/` of a
    closing pair.
   */
  function SkipBlockComment(rd: Reader, prev: int, line: nat): (b: Block)
    ensures b.rd.input == rd.input && b.rd.pos >= rd.pos && b.line >= line
    ensures b.Closed? ==> Remaining(b.rd) < Remaining(rd)
    ensures b.Unclosed? ==> Remaining(b.rd) == 0
    decreases Remaining(rd)
  {
    var n := Read(rd);
    if n.ch == Chr(SLASH) && prev == STAR then Closed(n.rd, line)
    else
      var m :=
        if n.ch == Chr(CR) then (var n2 := Read(n.rd); if n2.ch == Chr(LF) then Read(n2.rd) else n2)
        else if n.ch == Chr(LF) then Read(n.rd)
        else n;
      var line' := if n.ch.Chr? && IsLineBreak(n.ch.code) then line + 1 else line;
      match m.ch
      case Eof => Unclosed(m.rd, line')
      case Chr(c) => SkipBlockComment(m.rd, c, line')
  }

  /**
    The loop as written also closes a comment only on a `*` `/` pair,
    though the `*` may be the unexamined character after a line terminator.
   */
  lemma {:induction false} SkipBlockCommentClosesOnPair(rd: Reader, prev: int, line: nat)
    ensures SkipBlockComment(rd, prev, line).Closed? ==>
              ClosedByPair(rd.input, rd.pos, SkipBlockComment(rd, prev, line).rd.pos, prev)
    decreases Remaining(rd)
  {
    var n := Read(rd);
    if n.ch != Chr(SLASH) || prev != STAR {
      var m :=
        if n.ch == Chr(CR) then (var n2 := Read(n.rd); if n2.ch == Chr(LF) then Read(n2.rd) else n2)
        else if n.ch == Chr(LF) then Read(n.rd)
        else n;
      var line' := if n.ch.Chr? && IsLineBreak(n.ch.code) then line + 1 else line;
      match m.ch
      case Eof =>
      case Chr(c) => SkipBlockCommentClosesOnPair(m.rd, c, line');
    }
  }

  /**
    The number of lines the loop as written counts over the comment text
    `b`: a line terminator (a CR-LF pair being one) counts once, and the
    code right after it is passed over without being examined.
   */
  function WrittenBreaks(b: seq<Code>): nat
    decreases |b|
  {
    if b == [] then 0
    else if IsLineBreak(b[0]) then
      var k := TerminatorLength(b);
      1 + (if k < |b| then WrittenBreaks(b[k + 1..]) else 0)
    else WrittenBreaks(b[1..])
  }

  /**
    `b` starts with a line terminator that is lost when its first code is
    dropped: an LF, or a CR not followed by an LF. (Dropping the CR of a
    CR-LF pair leaves the LF, still one terminator.)
   */
  predicate DropsBreak(b: seq<Code>)
  {
    b != [] && (b[0] == LF || (b[0] == CR && !(|b| > 1 && b[1] == LF)))
  }

  /**
    No code passed over by the loop as written after a line terminator
    starts a terminator that would be lost by passing over it.
   */
  predicate EveryLineCounted(b: seq<Code>)
    decreases |b|
  {
    if b == [] then true
    else if IsLineBreak(b[0]) then
      var k := TerminatorLength(b);
      k < |b| ==> !DropsBreak(b[k..]) && EveryLineCounted(b[k + 1..])
    else EveryLineCounted(b[1..])
  }

  /**
    A block comment whose text `b` holds no closing `*` `/` is skipped
    through its closing pair, and the loop as written raises the line
    counter by `WrittenBreaks(b)`.
   */
  lemma {:induction false} SkipBlockCommentRun(rd: Reader, prev: int, line: nat, b: seq<Code>, rest: seq<Code>)
    requires rd.pos <= |rd.input| && rd.input[rd.pos..] == b + [STAR, SLASH] + rest
    requires NoClose(prev, b)
    ensures SkipBlockComment(rd, prev, line) == Closed(Reader(rd.input, rd.pos + |b| + 2), line + WrittenBreaks(b))
    decreases |b|
  {
    ConcatAssoc(b, [STAR, SLASH], rest);
    if b == [] {
      assert rd.input[rd.pos..] == [STAR, SLASH] + rest;
      Lead2(rd, STAR, SLASH, rest);
      PlainStep(rd, prev, line);
      CloseAfterStar(Reader(rd.input, rd.pos + 1), line);
    } else if IsLineBreak(b[0]) {
      SkipAfterBreak(rd, prev, line, b, rest, TerminatorLength(b));
    } else {
      HeadOf(rd, b, [STAR, SLASH] + rest);
      ConcatAssoc(b[1..], [STAR, SLASH], rest);
      PlainStep(rd, prev, line);
      NoCloseSuffix(prev, b, 1);
      assert WrittenBreaks(b) == WrittenBreaks(b[1..]);
      SkipBlockCommentRun(Reader(rd.input, rd.pos + 1), b[0], line, b[1..], rest);
    }
  }

  /**
    The loop as written never counts more lines than there are line
    terminators, and counts all of them exactly when no terminator is lost
    to the code passed over after another one. `/*` LF CR LF `*/` is
    counted in full; `/*` LF LF `*/` is not.
   */
  lemma {:induction false} WrittenBreaksExact(b: seq<Code>)
    ensures WrittenBreaks(b) <= Breaks(b)
    ensures WrittenBreaks(b) == Breaks(b) <==> EveryLineCounted(b)
    decreases |b|
  {
    if b != [] {
      var k := TerminatorLength(b);
      BreaksStep(b);
      if !IsLineBreak(b[0]) {
        WrittenBreaksExact(b[1..]);
      } else if k < |b| {
        WrittenBreaksExact(b[k + 1..]);
        BreaksDropOne(b[k..]);
        assert b[k..][1..] == b[k + 1..];
      } else {
        assert b[k..] == [];
      }
    }
  }

  /** Dropping the first code of `b` loses a line terminator exactly when `DropsBreak(b)`. */
  lemma BreaksDropOne(b: seq<Code>)
    requires b != []
    ensures Breaks(b) == (if DropsBreak(b) then 1 else 0) + Breaks(b[1..])
  {
    if |b| > 1 && b[0] == CR && b[1] == LF {
      assert b[1..][1..] == b[2..];
    }
  }

  /** One step of the loop as written over a code that is neither a line terminator nor a closing `/`. */
  lemma PlainStep(rd: Reader, prev: int, line: nat)
    requires rd.pos < |rd.input| && !IsLineBreak(rd.input[rd.pos])
    requires !(rd.input[rd.pos] == SLASH && prev == STAR)
    ensures SkipBlockComment(rd, prev, line) == SkipBlockComment(Reader(rd.input, rd.pos + 1), rd.input[rd.pos], line)
  {
    assert Read(rd) == Reading(Chr(rd.input[rd.pos]), Reader(rd.input, rd.pos + 1));
  }

  /** The step of `SkipBlockCommentRun` over a line terminator of `k` characters at the head of `b`. */
  lemma {:induction false} SkipAfterBreak(rd: Reader, prev: int, line: nat, b: seq<Code>, rest: seq<Code>, k: nat)
    requires rd.pos <= |rd.input| && rd.input[rd.pos..] == b + [STAR, SLASH] + rest
    requires NoClose(prev, b)
    requires b != [] && IsLineBreak(b[0]) && k == TerminatorLength(b)
    ensures SkipBlockComment(rd, prev, line) == Closed(Reader(rd.input, rd.pos + |b| + 2), line + WrittenBreaks(b))
    decreases |b|, 0
  {
    BreakLayout(rd, b, rest, k);
    // The character after the terminator is read without being examined.
    var rd1 := BlockBreakStep(rd, prev, line, k);
    WrittenBreaksStep(b, k);
    if k == |b| {
      // It is the `*` of the closing pair.
      CloseAfterStar(rd1, line + 1);
    } else {
      NoCloseSuffix(prev, b, k + 1);
      ConcatAssoc(b, [STAR, SLASH], rest);
      Advance(rd, b, [STAR, SLASH] + rest, k + 1);
      ConcatAssoc(b[k + 1..], [STAR, SLASH], rest);
      SkipBlockCommentRun(rd1, rd.input[rd.pos + k], line + 1, b[k + 1..], rest);
    }
  }

  /** The count of the loop as written over a line terminator of `k` codes at the head of `b`. */
  lemma WrittenBreaksStep(b: seq<Code>, k: nat)
    requires b != [] && IsLineBreak(b[0]) && k == TerminatorLength(b)
    ensures k < |b| ==> WrittenBreaks(b) == 1 + WrittenBreaks(b[k + 1..])
    ensures k >= |b| ==> WrittenBreaks(b) == 1
  {
  }

  /** Where the characters around a line terminator at the head of `b` sit in the input. */
  lemma BreakLayout(rd: Reader, b: seq<Code>, rest: seq<Code>, k: nat)
    requires rd.pos <= |rd.input| && rd.input[rd.pos..] == b + [STAR, SLASH] + rest
    requires 1 <= k <= 2 && k <= |b|
    requires k == 2 <==> (b[0] == CR && |b| > 1 && b[1] == LF)
    requires IsLineBreak(b[0])
    ensures rd.pos + k < |rd.input|
    ensures IsLineBreak(rd.input[rd.pos])
    ensures k == 2 <==> (rd.input[rd.pos] == CR && rd.input[rd.pos + 1] == LF)
    ensures k == |b| ==> rd.input[rd.pos + k] == STAR && rd.input[rd.pos + k + 1] == SLASH
    ensures k < |b| ==> rd.input[rd.pos + k] == b[k]
    ensures k < |b| ==> rd.input[rd.pos + k + 1..] == b[k + 1..] + [STAR, SLASH] + rest
  {
    var tail := [STAR, SLASH] + rest;
    var full := b + tail;
    ConcatAssoc(b, [STAR, SLASH], rest);
    assert rd.input[rd.pos..][0] == full[0];
    assert rd.input[rd.pos..][1] == full[1];
    assert rd.input[rd.pos..][k] == full[k];
    assert rd.input[rd.pos..][k + 1] == full[k + 1];
    if k < |b| {
      DropDrop(rd.input, rd.pos, k + 1);
      DropConcat(b, tail, k + 1);
      ConcatAssoc(b[k + 1..], [STAR, SLASH], rest);
    }
  }

  /** The loop holding a `*` as the previous character closes at a following `/`. */
  lemma CloseAfterStar(rd: Reader, line: nat)
    requires 1 <= rd.pos < |rd.input| && rd.input[rd.pos - 1] == STAR && rd.input[rd.pos] == SLASH
    ensures SkipBlockComment(rd, rd.input[rd.pos - 1], line) == Closed(Reader(rd.input, rd.pos + 1), line)
  {
    assert Read(rd) == Reading(Chr(SLASH), Reader(rd.input, rd.pos + 1));
  }

  /**
    One step of the block comment loop over a line terminator of `k`
    characters: the line counter goes up and the character after the
    terminator becomes the previous character, unexamined.
   */
  lemma BlockBreakStep(rd: Reader, prev: int, line: nat, k: nat) returns (after: Reader)
    requires 1 <= k <= 2 && rd.pos + k < |rd.input|
    requires IsLineBreak(rd.input[rd.pos])
    requires k == 2 <==> (rd.input[rd.pos] == CR && rd.input[rd.pos + 1] == LF)
    ensures after == Reader(rd.input, rd.pos + k + 1)
    ensures SkipBlockComment(rd, prev, line) == SkipBlockComment(after, rd.input[rd.pos + k], line + 1)
  {
    after := Reader(rd.input, rd.pos + k + 1);
    var c := rd.input[rd.pos + k];
    if k == 2 {
      BreakStepPair(rd, prev, line);
      assert after == Reader(rd.input, rd.pos + 3) && c == rd.input[rd.pos + 2];
    } else {
      BreakStepSingle(rd, prev, line);
      assert after == Reader(rd.input, rd.pos + 2) && c == rd.input[rd.pos + 1];
    }
  }

  lemma BreakStepPair(rd: Reader, prev: int, line: nat)
    requires rd.pos + 2 < |rd.input| && rd.input[rd.pos] == CR && rd.input[rd.pos + 1] == LF
    ensures SkipBlockComment(rd, prev, line)
         == SkipBlockComment(Reader(rd.input, rd.pos + 3), rd.input[rd.pos + 2], line + 1)
  {
    assert Read(rd) == Reading(Chr(CR), Reader(rd.input, rd.pos + 1));
    assert Read(Reader(rd.input, rd.pos + 1)) == Reading(Chr(LF), Reader(rd.input, rd.pos + 2));
    assert Read(Reader(rd.input, rd.pos + 2)) == Reading(Chr(rd.input[rd.pos + 2]), Reader(rd.input, rd.pos + 3));
  }

  lemma BreakStepSingle(rd: Reader, prev: int, line: nat)
    requires rd.pos + 1 < |rd.input| && IsLineBreak(rd.input[rd.pos])
    requires !(rd.input[rd.pos] == CR && rd.input[rd.pos + 1] == LF)
    ensures SkipBlockComment(rd, prev, line)
         == SkipBlockComment(Reader(rd.input, rd.pos + 2), rd.input[rd.pos + 1], line + 1)
  {
    assert Read(rd) == Reading(Chr(rd.input[rd.pos]), Reader(rd.input, rd.pos + 1));
    assert Read(Reader(rd.input, rd.pos + 1)) == Reading(Chr(rd.input[rd.pos + 1]), Reader(rd.input, rd.pos + 2));
  }

  /**
    The comment text `LF LF`: the loop as written raises the line counter
    once, the corrected loop twice, once per line terminator.
   */
  lemma SecondBreakUncounted()
    ensures SkipBlockComment(Reader([LF, LF, STAR, SLASH], 0), 0, 1) == Closed(Reader([LF, LF, STAR, SLASH], 4), 2)
    ensures Lexemes.SkipBlockComment(Reader([LF, LF, STAR, SLASH], 0), 0, 1) == Closed(Reader([LF, LF, STAR, SLASH], 4), 3)
    ensures Breaks([LF, LF]) == 2
  {
    var input := [LF, LF, STAR, SLASH];
    assert Read(Reader(input, 0)) == Reading(Chr(LF), Reader(input, 1));
    assert Read(Reader(input, 1)) == Reading(Chr(LF), Reader(input, 2));
    assert Read(Reader(input, 2)) == Reading(Chr(STAR), Reader(input, 3));
    assert Read(Reader(input, 3)) == Reading(Chr(SLASH), Reader(input, 4));
    assert SkipBlockComment(Reader(input, 3), STAR, 2) == Closed(Reader(input, 4), 2);
    assert Lexemes.SkipBlockComment(Reader(input, 3), STAR, 3) == Closed(Reader(input, 4), 3);
    assert Lexemes.SkipBlockComment(Reader(input, 2), LF, 3) == Closed(Reader(input, 4), 3);
    assert Lexemes.SkipBlockComment(Reader(input, 1), LF, 2) == Closed(Reader(input, 4), 3);
    BreaksOne(LF);
    assert [LF, LF][1..] == [LF];
    assert CountBreaks([LF, LF]) == 1 + CountBreaks([LF]);
  }
}
