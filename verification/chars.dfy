/**
  Character codes and the character source of the tokenizer.

  The source reads UTF-16 code units from an in-memory string one at a time
  (`charCodeAt(index++)`). Here the string is a `seq<Code>` and the cursor a
  `Reader`; reading at the end yields the distinguished value `Eof` and leaves
  the cursor where it is.
 */
module Chars {

  /** A UTF-16 code unit, the value `charCodeAt` returns for a valid index. */
  type Code = c: int | 0 <= c < 0x1_0000

  const TAB: Code := 9
  const LF: Code := 10
  const CR: Code := 13
  const DQUOTE: Code := 34
  const SQUOTE: Code := 39
  const STAR: Code := 42
  const DASH: Code := 45
  const DOT: Code := 46
  const SLASH: Code := 47
  const ZERO: Code := 48
  const THREE: Code := 51
  const SEVEN: Code := 55
  const NINE: Code := 57
  const BACKSLASH: Code := 92

  predicate IsDecimalDigit(c: int) { ZERO <= c <= NINE }

  predicate IsOctalDigit(c: int) { ZERO <= c <= SEVEN }

  predicate IsLineBreak(c: int) { c == CR || c == LF }

  /** The result of one read: a code unit, or end of input. */
  datatype Ch = Chr(code: Code) | Eof

  /** The first character of `rest` as a read would see it. */
  function First(rest: seq<Code>): Ch
  {
    if rest == [] then Eof else Chr(rest[0])
  }

  /** The input string together with the index of the next code unit to read. */
  datatype Reader = Reader(input: seq<Code>, pos: nat)

  /** Number of code units not yet read. */
  function Remaining(rd: Reader): nat
  {
    if rd.pos <= |rd.input| then |rd.input| - rd.pos else 0
  }

  /**
    Termination weight of a reader together with a character already in hand:
    a real character in hand still counts as one unit of work.
   */
  function Weight(rd: Reader, ch: Ch): nat
  {
    Remaining(rd) + (if ch.Chr? then 1 else 0)
  }

  datatype Reading = Reading(ch: Ch, rd: Reader)

  /** Read the next code unit; at the end of input the cursor stays put. */
  function Read(rd: Reader): (r: Reading)
    ensures r.rd.input == rd.input
    ensures r.ch.Chr? <==> rd.pos < |rd.input|
    ensures r.ch.Chr? ==> r.ch.code == rd.input[rd.pos] && r.rd.pos == rd.pos + 1
    ensures r.ch.Eof? ==> r.rd == rd && Remaining(rd) == 0
    ensures Weight(r.rd, r.ch) <= Remaining(rd)
  {
    if rd.pos < |rd.input| then Reading(Chr(rd.input[rd.pos]), rd.(pos := rd.pos + 1))
    else Reading(Eof, rd)
  }

  /**
    Number of line terminators in `w`, a CR immediately followed by LF
    counting once. Kept non-recursive, so that a statement about scanners
    and the lemma it rests on mention one and the same term.
   */
  function Breaks(w: seq<Code>): nat
  {
    CountBreaks(w)
  }

  function CountBreaks(w: seq<Code>): nat
  {
    if w == [] then 0
    else if w[0] == CR && |w| > 1 && w[1] == LF then 1 + CountBreaks(w[2..])
    else if IsLineBreak(w[0]) then 1 + CountBreaks(w[1..])
    else CountBreaks(w[1..])
  }

  lemma ConcatAssoc(a: seq<Code>, b: seq<Code>, c: seq<Code>)
    ensures a + b + c == a + (b + c)
  {
  }

  /** Dropping a prefix of a concatenation. */
  lemma DropConcat(a: seq<Code>, b: seq<Code>, j: nat)
    requires j <= |a|
    ensures (a + b)[j..] == a[j..] + b
  {
  }

  /** Dropping `j` more code units from the unread input. */
  lemma DropDrop(s: seq<Code>, p: nat, j: nat)
    requires p + j <= |s|
    ensures s[p..][j..] == s[p + j..]
  {
  }

  /** The reader after the first `j` code units of `w`, when the unread input starts with `w`. */
  lemma Advance(rd: Reader, w: seq<Code>, rest: seq<Code>, j: nat)
    requires rd.pos <= |rd.input| && rd.input[rd.pos..] == w + rest
    requires j <= |w|
    ensures rd.pos + j <= |rd.input|
    ensures rd.input[rd.pos + j..] == w[j..] + rest
    ensures j < |w| ==> rd.input[rd.pos + j] == w[j]
    ensures j == |w| && rest != [] ==> rd.input[rd.pos + j] == rest[0]
    ensures j == |w| && rest == [] ==> rd.pos + j == |rd.input|
  {
    DropDrop(rd.input, rd.pos, j);
    DropConcat(w, rest, j);
    if j < |w| {
      assert rd.input[rd.pos..][j] == (w + rest)[j];
    } else if rest != [] {
      assert rd.input[rd.pos..][j] == (w + rest)[j];
    }
  }

  /** The unread input starting with `w` holds `w` at its front. */
  lemma Prefix(rd: Reader, w: seq<Code>, rest: seq<Code>)
    requires rd.pos <= |rd.input| && rd.input[rd.pos..] == w + rest
    ensures rd.pos + |w| <= |rd.input| && rd.input[rd.pos..rd.pos + |w|] == w
  {
    assert rd.input[rd.pos..][..|w|] == rd.input[rd.pos..rd.pos + |w|];
    assert (w + rest)[..|w|] == w;
  }

  /** The unread input starting with one known code. */
  lemma Lead1(rd: Reader, c: Code, more: seq<Code>)
    requires rd.pos <= |rd.input| && rd.input[rd.pos..] == [c] + more
    ensures rd.pos < |rd.input| && rd.input[rd.pos] == c && rd.input[rd.pos + 1..] == more
  {
    assert rd.input[rd.pos..][0] == c;
    DropDrop(rd.input, rd.pos, 1);
  }

  /** The unread input starting with two known codes. */
  lemma Lead2(rd: Reader, c: Code, d: Code, more: seq<Code>)
    requires rd.pos <= |rd.input| && rd.input[rd.pos..] == [c, d] + more
    ensures rd.pos + 1 < |rd.input| && rd.input[rd.pos] == c && rd.input[rd.pos + 1] == d
    ensures rd.input[rd.pos + 2..] == more
  {
    assert rd.input[rd.pos..][0] == c;
    assert rd.input[rd.pos..][1] == d;
    DropDrop(rd.input, rd.pos, 2);
  }

  /** The unread input `w + rest`, `w` non-empty, split after its first code. */
  lemma HeadOf(rd: Reader, w: seq<Code>, rest: seq<Code>)
    requires rd.pos <= |rd.input| && rd.input[rd.pos..] == w + rest && w != []
    ensures rd.pos < |rd.input| && rd.input[rd.pos] == w[0] && rd.input[rd.pos + 1..] == w[1..] + rest
  {
    assert rd.input[rd.pos..][0] == (w + rest)[0];
    DropDrop(rd.input, rd.pos, 1);
    DropConcat(w, rest, 1);
  }

  /** What is left of the unread input `w + rest` after `w`. */
  lemma Behind(rd: Reader, w: seq<Code>, rest: seq<Code>)
    requires rd.pos <= |rd.input| && rd.input[rd.pos..] == w + rest
    ensures rd.pos + |w| <= |rd.input| && rd.input[rd.pos + |w|..] == rest
  {
    DropDrop(rd.input, rd.pos, |w|);
    assert (w + rest)[|w|..] == rest;
  }

  /** The unread input `a + b + rest` seen as `a`, then `b + rest`. */
  lemma SplitFront(rd: Reader, a: seq<Code>, b: seq<Code>, rest: seq<Code>)
    requires rd.pos <= |rd.input| && rd.input[rd.pos..] == a + b + rest
    ensures rd.input[rd.pos..] == a + (b + rest)
    ensures rd.pos + |a| <= |rd.input| && rd.input[rd.pos + |a|..] == b + rest
    ensures |a + b| == |a| + |b|
  {
    ConcatAssoc(a, b, rest);
    Behind(rd, a, b + rest);
  }

  lemma BreaksOne(c: Code)
    ensures Breaks([c]) == if IsLineBreak(c) then 1 else 0
  {
    assert [c][1..] == [];
    assert CountBreaks([c]) == (if IsLineBreak(c) then 1 else 0) + CountBreaks([]);
  }
}
