/**
  The sub-scanners `nextToken` dispatches to: the whitespace and line
  counting loop, number, word and quoted-string accumulation, escape
  decoding, and the two comment skippers.

  Each takes the reader positioned just after the characters already in
  hand and returns what the source leaves in its locals (`c`, `d`, the
  line counter) when it leaves the loop, so that `nextToken` itself only
  dispatches.
 */
module Lexemes {
  import opened Chars
  import opened SyntaxTable

  // ----------------------------------------------------------------------
  // Whitespace and line counting

  /** How the whitespace loop ends. */
  datatype Blank =
    | EolToken(rd: Reader, line: nat, skipLF: bool)  // the loop returns TT_EOL; `skipLF` arms SKIP_LF
    | Visible(c: Code, rd: Reader, line: nat)         // first character without the WHITESPACE class

  /**
    The whitespace loop, entered with `c` in hand. A CR or LF raises the
    line counter; with `eolSig` they end the loop as an end-of-line token,
    a CR also arming SKIP_LF. Without `eolSig` a CR swallows one following
    LF. Running out of input inside the loop is reported as end of line.
   */
  function SkipBlanks(t: Table, eolSig: bool, c: Code, rd: Reader, line: nat): (b: Blank)
    ensures b.rd.input == rd.input && b.rd.pos >= rd.pos
    ensures Remaining(b.rd) <= Remaining(rd)
    ensures b.line >= line
    ensures b.Visible? ==> !Has(Class(t, b.c), CT_WHITESPACE)
    ensures b.Visible? && !Has(Class(t, c), CT_WHITESPACE) ==> b == Visible(c, rd, line)
    ensures b.EolToken? && b.skipLF ==> eolSig
    decreases Remaining(rd)
  {
    if !Has(Class(t, c), CT_WHITESPACE) then Visible(c, rd, line)
    else if c == CR && eolSig then EolToken(rd, line + 1, true)
    else if c == LF && eolSig then EolToken(rd, line + 1, false)
    else
      var n := Read(rd);
      var m := if c == CR && n.ch == Chr(LF) then Read(n.rd) else n;
      var line' := if IsLineBreak(c) then line + 1 else line;
      match m.ch
      case Eof => EolToken(m.rd, line', false)
      case Chr(d) => SkipBlanks(t, eolSig, d, m.rd, line')
  }

  predicate IsBlank(t: Table, c: Code)
  {
    Has(Class(t, c), CT_WHITESPACE)
  }

  /** The run `[c] + w` ends in a CR. */
  predicate EndsWithCR(c: Code, w: seq<Code>)
  {
    if w == [] then c == CR else w[|w| - 1] == CR
  }

  /** The whitespace run `[c] + w` is followed in the input by `rest`, which does not continue it. */
  predicate BlankRun(t: Table, eolSig: bool, c: Code, rd: Reader, w: seq<Code>, rest: seq<Code>)
  {
    && rd.pos <= |rd.input| && rd.input[rd.pos..] == w + rest
    && IsBlank(t, c) && (forall i :: 0 <= i < |w| ==> IsBlank(t, w[i]))
    && (eolSig ==> !IsLineBreak(c) && forall i :: 0 <= i < |w| ==> !IsLineBreak(w[i]))
    && (rest != [] ==> !IsBlank(t, rest[0]) && !(EndsWithCR(c, w) && rest[0] == LF))
  }

  /** Where the whitespace loop ends after the run `[c] + w` followed by `rest`. */
  function BlankEnd(rd: Reader, c: Code, w: seq<Code>, rest: seq<Code>, line: nat): Blank
  {
    if rest == [] then EolToken(Reader(rd.input, |rd.input|), line + Breaks([c] + w), false)
    else Visible(rest[0], Reader(rd.input, rd.pos + |w| + 1), line + Breaks([c] + w))
  }

  /**
    A run of whitespace `[c] + w` followed by `rest` is skipped as a whole:
    the loop stops at the first character of `rest` (or reports end of
    line at the end of input) with the line counter raised by the number
    of line terminators in the run, a CR-LF pair counting once.
   */
  lemma {:induction false} SkipBlanksCountsLines(t: Table, eolSig: bool, c: Code, rd: Reader, line: nat,
                                                 w: seq<Code>, rest: seq<Code>)
    requires BlankRun(t, eolSig, c, rd, w, rest)
    ensures SkipBlanks(t, eolSig, c, rd, line) == BlankEnd(rd, c, w, rest, line)
    decreases |w|, 1
  {
    if c == CR && w != [] && w[0] == LF {
      SkipBlanksCRLF(t, eolSig, rd, line, w, rest);
    } else if w == [] {
      var n := Read(rd);
      assert [c] + w == [c];
      BreaksOne(c);
      if rest == [] {
        assert rd.pos == |rd.input|;
        assert n == Reading(Eof, rd);
        assert Reader(rd.input, |rd.input|) == rd;
        assert SkipBlanks(t, eolSig, c, rd, line) == EolToken(rd, line + Breaks([c]), false);
      } else {
        assert rd.input[rd.pos] == rest[0] by { assert rd.input[rd.pos..][0] == rest[0]; }
        assert n.ch == Chr(rest[0]);
        assert !(c == CR && rest[0] == LF);
        var line' := if IsLineBreak(c) then line + 1 else line;
        assert SkipBlanks(t, eolSig, c, rd, line) == SkipBlanks(t, eolSig, rest[0], n.rd, line');
        assert SkipBlanks(t, eolSig, rest[0], n.rd, line') == Visible(rest[0], n.rd, line');
        assert n.rd == Reader(rd.input, rd.pos + |w| + 1);
      }
    } else {
      SkipBlanksOne(t, eolSig, c, rd, line, w, rest);
    }
  }

  /** The step of `SkipBlanksCountsLines` over a CR-LF pair: the CR swallows the LF. */
  lemma {:induction false} SkipBlanksCRLF(t: Table, eolSig: bool, rd: Reader, line: nat,
                                          w: seq<Code>, rest: seq<Code>)
    requires BlankRun(t, eolSig, CR, rd, w, rest)
    requires w != [] && w[0] == LF
    ensures SkipBlanks(t, eolSig, CR, rd, line) == BlankEnd(rd, CR, w, rest, line)
    decreases |w|, 0
  {
    var n := Read(rd);
    assert rd.input[rd.pos] == w[0] by { assert rd.input[rd.pos..][0] == (w + rest)[0]; }
    assert n.ch == Chr(LF);
    var m := Read(n.rd);
    assert Breaks([CR] + w) == 1 + Breaks(w[1..]) by {
      assert ([CR] + w)[2..] == w[1..];
    }
    if |w| == 1 {
      if rest == [] {
        assert m.ch == Eof;
      } else {
        assert rd.input[rd.pos + 1] == rest[0] by { assert rd.input[rd.pos..][1] == (w + rest)[1]; }
        assert m.ch == Chr(rest[0]);
      }
      assert w[1..] == [];
    } else {
      var w' := w[2..];
      assert rd.input[rd.pos + 1] == w[1] by { assert rd.input[rd.pos..][1] == (w + rest)[1]; }
      assert m.ch == Chr(w[1]) && m.rd.pos == rd.pos + 2;
      assert m.rd.input[m.rd.pos..] == w' + rest by {
        assert rd.input[rd.pos..][2..] == rd.input[rd.pos + 2..];
        assert (w + rest)[2..] == w' + rest;
      }
      assert [w[1]] + w' == w[1..];
      assert EndsWithCR(w[1], w') == EndsWithCR(CR, w);
      SkipBlanksCountsLines(t, eolSig, w[1], m.rd, line + 1, w', rest);
    }
  }

  /** The step of `SkipBlanksCountsLines` over one character that is not a CR followed by LF. */
  lemma {:induction false} SkipBlanksOne(t: Table, eolSig: bool, c: Code, rd: Reader, line: nat,
                                         w: seq<Code>, rest: seq<Code>)
    requires BlankRun(t, eolSig, c, rd, w, rest)
    requires w != [] && !(c == CR && w[0] == LF)
    ensures SkipBlanks(t, eolSig, c, rd, line) == BlankEnd(rd, c, w, rest, line)
    decreases |w|, 0
  {
    var n := Read(rd);
    var line' := if IsLineBreak(c) then line + 1 else line;
    var w' := w[1..];
    assert rd.input[rd.pos] == w[0] by { assert rd.input[rd.pos..][0] == (w + rest)[0]; }
    assert n.ch == Chr(w[0]) && n.rd.pos == rd.pos + 1;
    assert n.rd.input[n.rd.pos..] == w' + rest by {
      assert rd.input[rd.pos..][1..] == rd.input[rd.pos + 1..];
      assert (w + rest)[1..] == w' + rest;
    }
    assert Breaks([c] + w) == (if IsLineBreak(c) then 1 else 0) + Breaks(w) by {
      assert ([c] + w)[1..] == w;
    }
    assert [w[0]] + w' == w;
    assert EndsWithCR(w[0], w') == EndsWithCR(c, w);
    SkipBlanksCountsLines(t, eolSig, w[0], n.rd, line', w', rest);
  }

  /**
    With significant line ends, a blank run `[c] + w` holding no CR or LF
    that is followed by a blank CR or LF ends the loop with an end of line
    just past that terminator: the counter rises by one, and a CR arms
    SKIP_LF.
   */
  lemma {:induction false} SkipBlanksToBreak(t: Table, c: Code, rd: Reader, line: nat, w: seq<Code>, rest: seq<Code>)
    requires rd.pos <= |rd.input| && rd.input[rd.pos..] == w + rest
    requires IsBlank(t, c) && !IsLineBreak(c)
    requires forall i :: 0 <= i < |w| ==> IsBlank(t, w[i]) && !IsLineBreak(w[i])
    requires rest != [] && IsLineBreak(rest[0]) && IsBlank(t, rest[0])
    ensures SkipBlanks(t, true, c, rd, line) == EolToken(Reader(rd.input, rd.pos + |w| + 1), line + 1, rest[0] == CR)
    decreases |w|
  {
    if w == [] {
      HeadOf(rd, rest, []);
      assert Read(rd) == Reading(Chr(rest[0]), Reader(rd.input, rd.pos + 1));
    } else {
      HeadOf(rd, w, rest);
      assert Read(rd) == Reading(Chr(w[0]), Reader(rd.input, rd.pos + 1));
      SkipBlanksToBreak(t, w[0], Reader(rd.input, rd.pos + 1), line, w[1..], rest);
    }
  }

  // ----------------------------------------------------------------------
  // Numbers

  /**
    The exact value of a number token: `(neg ? -1 : 1) * mantissa / 10^scale`,
    `scale` being the count of digits after the decimal point.
   */
  datatype Numeral = Numeral(neg: bool, mantissa: nat, scale: nat)

  function Pow10(n: nat): (p: nat)
    ensures p >= 1
  {
    if n == 0 then 1 else 10 * Pow10(n - 1)
  }

  function Value(n: Numeral): real
  {
    var m := n.mantissa as real / Pow10(n.scale) as real;
    if n.neg then -m else m
  }

  predicate AllDigits(ds: seq<Code>)
  {
    forall i :: 0 <= i < |ds| ==> IsDecimalDigit(ds[i])
  }

  /** The value of a string of decimal digits, most significant first. */
  function DecimalValue(ds: seq<Code>): nat
    requires AllDigits(ds)
  {
    if ds == [] then 0 else 10 * DecimalValue(ds[..|ds| - 1]) + (ds[|ds| - 1] - ZERO)
  }

  /** Where the digit loop stops. */
  datatype Digits = Digits(mantissa: nat, scale: nat, stop: Ch, rd: Reader)

  /**
    The digit loop, entered with `ch` in hand: the first `.` sets
    `seenDot`, every digit is accumulated and, once the dot is seen,
    counted in the scale. Anything else, a second `.` included, stops it
    and is handed back as the look-ahead.
   */
  function ScanDigits(ch: Ch, rd: Reader, v: nat, scale: nat, seenDot: bool): (d: Digits)
    requires ch.Eof? ==> Remaining(rd) == 0
    ensures d.stop.Eof? ==> Remaining(d.rd) == 0
    ensures d.rd.input == rd.input && d.rd.pos >= rd.pos
    ensures Weight(d.rd, d.stop) <= Weight(rd, ch)
    ensures !(d.stop.Chr? && IsDecimalDigit(d.stop.code))
    ensures d.stop == Chr(DOT) ==> d.rd.pos > rd.pos || seenDot
    ensures d.mantissa >= v && d.scale >= scale
    decreases Weight(rd, ch)
  {
    if ch == Chr(DOT) && !seenDot then
      var n := Read(rd);
      ScanDigits(n.ch, n.rd, v, scale, true)
    else if ch.Chr? && IsDecimalDigit(ch.code) then
      var n := Read(rd);
      ScanDigits(n.ch, n.rd, v * 10 + (ch.code - ZERO), if seenDot then scale + 1 else scale, seenDot)
    else Digits(v, scale, ch, rd)
  }

  /**
    The number loop stops at a `.` only after a first `.` has been taken:
    when none was taken before the call and `ch` is not one, a `.` lies
    strictly between the start and the stopping character.
   */
  lemma {:induction false} ScanDigitsSecondDot(ch: Ch, rd: Reader, v: nat, scale: nat, seenDot: bool)
    requires ch.Eof? ==> Remaining(rd) == 0
    ensures var d := ScanDigits(ch, rd, v, scale, seenDot);
            d.stop == Chr(DOT) && !seenDot && ch != Chr(DOT) ==>
              exists i :: rd.pos <= i < d.rd.pos - 1 && i < |rd.input| && rd.input[i] == DOT
    decreases Weight(rd, ch)
  {
    if !seenDot && ch.Chr? && IsDecimalDigit(ch.code) {
      var n := Read(rd);
      var v' := v * 10 + (ch.code - ZERO);
      if n.ch == Chr(DOT) {
        var n2 := Read(n.rd);
        var d := ScanDigits(n2.ch, n2.rd, v', scale, true);
        if d.stop == Chr(DOT) {
          assert n2.ch.Chr?;
          assert rd.input[rd.pos] == DOT;
        }
      } else {
        ScanDigitsSecondDot(n.ch, n.rd, v', scale, false);
      }
    }
  }

  /** The digit loop's accumulator after taking the digits `ds`, starting from `v`. */
  function Accumulate(v: nat, ds: seq<Code>): nat
    requires AllDigits(ds)
    decreases |ds|
  {
    if ds == [] then v else Accumulate(v * 10 + (ds[0] - ZERO), ds[1..])
  }

  /** The digit loop resumed at `rd`, taking the next character in hand. */
  function Resume(rd: Reader, v: nat, scale: nat, seenDot: bool): Digits
  {
    var n := Read(rd);
    ScanDigits(n.ch, n.rd, v, scale, seenDot)
  }

  /**
    Reading a run of digits `ds` advances the digit loop past all of them,
    accumulating each and, after the dot, counting each in the scale.
   */
  lemma {:induction false} ScanDigitsRun(rd: Reader, ds: seq<Code>, v: nat, scale: nat, seenDot: bool)
    requires rd.pos + |ds| <= |rd.input| && rd.input[rd.pos..rd.pos + |ds|] == ds
    requires AllDigits(ds)
    ensures Resume(rd, v, scale, seenDot)
         == Resume(Reader(rd.input, rd.pos + |ds|), Accumulate(v, ds), if seenDot then scale + |ds| else scale, seenDot)
    decreases |ds|, 1
  {
    if ds == [] {
      assert Reader(rd.input, rd.pos + |ds|) == rd;
    } else {
      ScanDigitsCons(rd, ds, v, scale, seenDot);
    }
  }

  /** The inductive step of `ScanDigitsRun`: the first digit, then the others. */
  lemma {:induction false} ScanDigitsCons(rd: Reader, ds: seq<Code>, v: nat, scale: nat, seenDot: bool)
    requires ds != [] && rd.pos + |ds| <= |rd.input| && rd.input[rd.pos..rd.pos + |ds|] == ds
    requires AllDigits(ds)
    ensures Resume(rd, v, scale, seenDot)
         == Resume(Reader(rd.input, rd.pos + |ds|), Accumulate(v, ds), if seenDot then scale + |ds| else scale, seenDot)
    decreases |ds|, 0
  {
    var next, v', scale' := ScanDigitsStep(rd, ds, v, scale, seenDot);
    ScanDigitsRun(next, ds[1..], v', scale', seenDot);
  }

  /** One digit in hand is accumulated and the next character read. */
  lemma ScanDigitsStep(rd: Reader, ds: seq<Code>, v: nat, scale: nat, seenDot: bool)
      returns (next: Reader, v': nat, scale': nat)
    requires ds != [] && rd.pos + |ds| <= |rd.input| && rd.input[rd.pos..rd.pos + |ds|] == ds
    requires AllDigits(ds)
    ensures next == Reader(rd.input, rd.pos + 1)
    ensures next.pos + |ds[1..]| <= |rd.input| && rd.input[next.pos..next.pos + |ds[1..]|] == ds[1..]
    ensures AllDigits(ds[1..])
    ensures Accumulate(v', ds[1..]) == Accumulate(v, ds)
    ensures (if seenDot then scale' + |ds[1..]| else scale') == (if seenDot then scale + |ds| else scale)
    ensures next.pos + |ds[1..]| == rd.pos + |ds|
    ensures Resume(rd, v, scale, seenDot) == Resume(next, v', scale', seenDot)
  {
    next := Reader(rd.input, rd.pos + 1);
    v' := v * 10 + (ds[0] - ZERO);
    scale' := if seenDot then scale + 1 else scale;
    DigitsLayout(rd, ds);
  }

  lemma DigitsLayout(rd: Reader, ds: seq<Code>)
    requires ds != [] && rd.pos + |ds| <= |rd.input| && rd.input[rd.pos..rd.pos + |ds|] == ds
    ensures rd.input[rd.pos] == ds[0]
    ensures rd.input[rd.pos + 1..rd.pos + 1 + |ds[1..]|] == ds[1..]
  {
    assert rd.input[rd.pos..rd.pos + |ds|][0] == rd.input[rd.pos];
    assert rd.input[rd.pos..rd.pos + |ds|][1..] == rd.input[rd.pos + 1..rd.pos + |ds|];
  }

  /** The accumulator is the decimal value of the digits read, shifted in after `v`. */
  lemma {:induction false} AccumulateValue(v: nat, ds: seq<Code>)
    requires AllDigits(ds)
    ensures Accumulate(v, ds) == v * Pow10(|ds|) + DecimalValue(ds)
    decreases |ds|
  {
    if ds != [] {
      var d := ds[0] - ZERO;
      var tail := ds[1..];
      AccumulateValue(v * 10 + d, tail);
      DecimalValueCons(ds);
      var p := Pow10(|tail|);
      assert Pow10(|ds|) == 10 * p by { Pow10Succ(|tail|); }
      ShiftByTen(v, p, d, DecimalValue(tail));
    }
  }

  lemma ShiftByTen(v: nat, p: nat, d: int, e: int)
    ensures (v * 10 + d) * p + e == v * (10 * p) + (d * p + e)
  {
  }

  lemma Pow10Succ(n: nat)
    ensures Pow10(n + 1) == 10 * Pow10(n)
  {
  }

  /** The decimal value read from the front: the leading digit weighs `10^(|ds| - 1)`. */
  lemma {:induction false} DecimalValueCons(ds: seq<Code>)
    requires ds != [] && AllDigits(ds)
    ensures DecimalValue(ds) == (ds[0] - ZERO) * Pow10(|ds| - 1) + DecimalValue(ds[1..])
    decreases |ds|
  {
    if |ds| > 1 {
      var init := ds[..|ds| - 1];
      DecimalValueCons(init);
      assert init[1..] == ds[1..][..|ds| - 2];
      var d := ds[0] - ZERO;
      var p := Pow10(|ds| - 2);
      Pow10Succ(|ds| - 2);
      ShiftByTenLeft(d, p, DecimalValue(init[1..]), ds[|ds| - 1] - ZERO);
    } else {
      assert ds[1..] == [];
    }
  }

  lemma ShiftByTenLeft(d: int, p: int, e: int, y: int)
    ensures 10 * (d * p + e) + y == d * (10 * p) + (10 * e + y)
  {
  }

  /** Accumulating two runs of digits one after the other is accumulating their concatenation. */
  lemma {:induction false} AccumulateConcat(v: nat, a: seq<Code>, b: seq<Code>)
    requires AllDigits(a) && AllDigits(b)
    ensures AllDigits(a + b)
    ensures Accumulate(v, a + b) == Accumulate(Accumulate(v, a), b)
    decreases |a|
  {
    if a == [] {
      assert a + b == b;
    } else {
      assert (a + b)[1..] == a[1..] + b;
      AccumulateConcat(v * 10 + (a[0] - ZERO), a[1..], b);
    }
  }

  /** The digit loop resumed before a character that does not continue the number stops there. */
  lemma {:induction false} ResumeStops(rd: Reader, v: nat, scale: nat, seenDot: bool, rest: seq<Code>)
    requires rd.pos <= |rd.input| && rd.input[rd.pos..] == rest
    requires rest != [] ==> !IsDecimalDigit(rest[0]) && (seenDot || rest[0] != DOT)
    ensures Resume(rd, v, scale, seenDot)
         == Digits(v, scale, First(rest), Reader(rd.input, rd.pos + (if rest == [] then 0 else 1)))
  {
    if rest != [] {
      assert rd.input[rd.pos] == rest[0] by { assert rd.input[rd.pos..][0] == rest[0]; }
    }
  }

  /** The first `.` is read past, and from then on digits count in the scale. */
  lemma ResumeAtDot(rd: Reader, v: nat)
    requires rd.pos < |rd.input| && rd.input[rd.pos] == DOT
    ensures Resume(rd, v, 0, false) == Resume(Reader(rd.input, rd.pos + 1), v, 0, true)
  {
  }

  /**
    The digit loop over a numeral: integer digits `ip`, then, when `dot`
    holds, a `.` and fraction digits `fp`, then `rest`, which does not
    continue the numeral. The mantissa is the decimal value of all the
    digits, the scale the number of fraction digits, and the first
    character of `rest` (or end of input) is handed back.
   */
  lemma {:induction false} ScanNumeral(rd: Reader, ip: seq<Code>, dot: bool, fp: seq<Code>, rest: seq<Code>)
    requires AllDigits(ip) && AllDigits(fp) && (!dot ==> fp == [])
    requires rd.pos <= |rd.input| && rd.input[rd.pos..] == ip + ((if dot then [DOT] else []) + fp + rest)
    requires rest != [] ==> !IsDecimalDigit(rest[0]) && (dot || rest[0] != DOT)
    ensures AllDigits(ip + fp)
    ensures Resume(rd, 0, 0, false)
         == Digits(DecimalValue(ip + fp), |fp|, First(rest),
                   Reader(rd.input, rd.pos + |ip| + (if dot then 1 else 0) + |fp| + (if rest == [] then 0 else 1)))
  {
    var tail := (if dot then [DOT] else []) + fp + rest;
    var v := Accumulate(0, ip);
    var rd1 := Reader(rd.input, rd.pos + |ip|);
    assert Resume(rd, 0, 0, false) == Resume(rd1, v, 0, false) && rd1.pos <= |rd.input| && rd.input[rd1.pos..] == tail by {
      Prefix(rd, ip, tail);
      ScanDigitsRun(rd, ip, 0, 0, false);
      Behind(rd, ip, tail);
    }
    AccumulateConcat(0, ip, fp);
    AccumulateValue(0, ip + fp);
    if dot {
      assert tail == [DOT] + (fp + rest);
      ScanFraction(rd1, v, fp, rest);
    } else {
      assert tail == rest && ip + fp == ip;
      ResumeStops(rd1, v, 0, false, rest);
    }
  }

  /**
    The number a numeral stands for: the triple the digit loop leaves for
    integer digits `ip` and fraction digits `fp` has as its value the
    integer part plus the fraction digits read as a decimal fraction,
    negated for a leading `-`.
   */
  lemma NumeralValue(neg: bool, ip: seq<Code>, fp: seq<Code>)
    requires AllDigits(ip) && AllDigits(fp)
    ensures AllDigits(ip + fp)
    ensures var m := DecimalValue(ip) as real + DecimalValue(fp) as real / Pow10(|fp|) as real;
      Value(Numeral(neg, DecimalValue(ip + fp), |fp|)) == if neg then -m else m
  {
    DecimalValueConcat(ip, fp);
    FractionShift(DecimalValue(ip), DecimalValue(fp), Pow10(|fp|), DecimalValue(ip + fp));
  }

  /** Digits written after others shift them left by one decimal place each. */
  lemma DecimalValueConcat(ip: seq<Code>, fp: seq<Code>)
    requires AllDigits(ip) && AllDigits(fp)
    ensures AllDigits(ip + fp)
    ensures DecimalValue(ip + fp) == DecimalValue(ip) * Pow10(|fp|) + DecimalValue(fp)
  {
    AccumulateConcat(0, ip, fp);
    AccumulateValue(0, ip + fp);
    AccumulateValue(0, ip);
    AccumulateValue(Accumulate(0, ip), fp);
  }

  lemma FractionShift(a: nat, b: nat, p: nat, m: nat)
    requires p >= 1 && m == a * p + b
    ensures m as real / p as real == a as real + b as real / p as real
  {
    assert m as real == a as real * p as real + b as real;
  }

  /** The digit loop at the `.` of a numeral, with the integer part `v` accumulated. */
  lemma {:induction false} ScanFraction(rd: Reader, v: nat, fp: seq<Code>, rest: seq<Code>)
    requires AllDigits(fp)
    requires rd.pos <= |rd.input| && rd.input[rd.pos..] == [DOT] + (fp + rest)
    requires rest != [] ==> !IsDecimalDigit(rest[0])
    ensures Resume(rd, v, 0, false)
         == Digits(Accumulate(v, fp), |fp|, First(rest), Reader(rd.input, rd.pos + 1 + |fp| + (if rest == [] then 0 else 1)))
  {
    var rd2 := Reader(rd.input, rd.pos + 1);
    var rd3 := Reader(rd.input, rd.pos + 1 + |fp|);
    assert Resume(rd, v, 0, false) == Resume(rd3, Accumulate(v, fp), |fp|, true) && rd3.pos <= |rd.input| && rd.input[rd3.pos..] == rest by {
      Lead1(rd, DOT, fp + rest);
      ResumeAtDot(rd, v);
      Prefix(rd2, fp, rest);
      ScanDigitsRun(rd2, fp, v, 0, true);
      Behind(rd2, fp, rest);
    }
    ResumeStops(rd3, Accumulate(v, fp), |fp|, true, rest);
  }


  // ----------------------------------------------------------------------
  // Words

  /** A character that continues a word: ALPHA or DIGIT class (codes of 256 and above are ALPHA). */
  predicate IsWordPart(t: Table, c: Code)
  {
    Has(Class(t, c), CT_ALPHA | CT_DIGIT)
  }

  datatype Word = Word(text: seq<Code>, stop: Ch, rd: Reader)

  /**
    The word loop: `acc` holds the characters taken so far; read on while
    the next character is a word part. End of input also stops the word.
   */
  function ScanWord(t: Table, acc: seq<Code>, rd: Reader): (w: Word)
    ensures w.rd.input == rd.input
    ensures w.rd.pos > rd.pos || (w.rd == rd && w.stop == Eof)
    ensures |w.text| >= |acc| && w.text[..|acc|] == acc
    ensures forall i :: |acc| <= i < |w.text| ==> IsWordPart(t, w.text[i])
    ensures w.stop.Chr? ==> !IsWordPart(t, w.stop.code)
    ensures w.stop.Eof? ==> Remaining(w.rd) == 0
    ensures Weight(w.rd, w.stop) <= Remaining(rd)
    decreases Remaining(rd)
  {
    var n := Read(rd);
    match n.ch
    case Eof => Word(acc, Eof, n.rd)
    case Chr(d) =>
      if IsWordPart(t, d) then ScanWord(t, acc + [d], n.rd) else Word(acc, n.ch, n.rd)
  }

  /**
    A word is exactly the longest run of word parts: given the input
    `w + rest` with every character of `w` a word part and `rest` not
    starting with one, the loop returns `acc + w` and hands back the first
    character of `rest` (or end of input).
   */
  lemma {:induction false} ScanWordRun(t: Table, acc: seq<Code>, rd: Reader, w: seq<Code>, rest: seq<Code>)
    requires rd.pos <= |rd.input| && rd.input[rd.pos..] == w + rest
    requires forall i :: 0 <= i < |w| ==> IsWordPart(t, w[i])
    requires rest != [] ==> !IsWordPart(t, rest[0])
    ensures ScanWord(t, acc, rd) ==
      Word(acc + w, First(rest), Reader(rd.input, rd.pos + |w| + (if rest == [] then 0 else 1)))
    decreases |w|
  {
    var n := Read(rd);
    if w == [] {
      if rest == [] { assert n.ch == Eof; } else { assert n.ch == Chr(rest[0]); }
    } else {
      assert n.ch == Chr(w[0]);
      assert n.rd.input[n.rd.pos..] == w[1..] + rest by {
        assert rd.input[rd.pos..][1..] == rd.input[rd.pos + 1..];
        assert (w + rest)[1..] == w[1..] + rest;
      }
      ScanWordRun(t, acc + [w[0]], n.rd, w[1..], rest);
      assert acc + [w[0]] + w[1..] == acc + w;
    }
  }

  function ToLower(c: Code): Code
  {
    if 'A' as int <= c <= 'Z' as int then c + 32 else c
  }

  /** ASCII lowercasing of a word (`lowerCaseMode`). */
  function LowerCase(s: seq<Code>): (r: seq<Code>)
    ensures |r| == |s|
    ensures forall i :: 0 <= i < |s| ==> !('A' as int <= r[i] <= 'Z' as int)
    ensures forall i :: 0 <= i < |s| && !('A' as int <= s[i] <= 'Z' as int) ==> r[i] == s[i]
    ensures forall i :: 0 <= i < |s| ==> r[i] == s[i] || r[i] == s[i] + 32
  {
    if s == [] then [] else [ToLower(s[0])] + LowerCase(s[1..])
  }

  // ----------------------------------------------------------------------
  // Quoted strings and escapes

  /**
    The code a backslash followed by `c` stands for when `c` is not an
    octal digit: a named escape letter gives its control code, any other
    character stands for itself.
   */
  function NamedEscape(c: Code): (r: Code)
    ensures r != c ==> 7 <= r <= 13 && EscapeLetter(r) == c
  {
    if c == 'a' as int then 7
    else if c == 'b' as int then 8
    else if c == 'f' as int then 0xC
    else if c == 'n' as int then LF
    else if c == 'r' as int then CR
    else if c == 't' as int then TAB
    else if c == 'v' as int then 0xB
    else c
  }

  datatype Escaped = Escaped(code: Code, next: Ch, rd: Reader)

  /**
    Decode an escape, `rd` positioned just after the backslash. Up to three
    octal digits are taken, the third only when the first is `0`-`3`; any
    other character is decoded by `NamedEscape`. A backslash at the end of
    input stands for code 0 (`String.fromCharCode(NaN)`). `next` is the
    look-ahead the string loop continues with.
   */
  function ScanEscape(rd: Reader): (e: Escaped)
    ensures Remaining(rd) == 0 ==> e == Escaped(0, Eof, rd)
    ensures e.next.Eof? ==> Remaining(e.rd) == 0
    ensures e.rd.input == rd.input && e.rd.pos >= rd.pos
    ensures Weight(e.rd, e.next) <= Remaining(rd)
    ensures var c := Read(rd).ch; c.Chr? && IsOctalDigit(c.code) ==> e.code < 256
    ensures var c := Read(rd).ch; c.Chr? && IsOctalDigit(c.code) && c.code > THREE ==> e.code < 64
    ensures var c := Read(rd).ch; c.Chr? && !IsOctalDigit(c.code) ==> e.code == NamedEscape(c.code)
  {
    var n := Read(rd);
    match n.ch
    case Eof => Escaped(0, Eof, n.rd)
    case Chr(c) =>
      if IsOctalDigit(c) then
        var n2 := Read(n.rd);
        if n2.ch.Chr? && IsOctalDigit(n2.ch.code) then
          var v := (c - ZERO) * 8 + (n2.ch.code - ZERO);
          var n3 := Read(n2.rd);
          if n3.ch.Chr? && IsOctalDigit(n3.ch.code) && c <= THREE then
            var n4 := Read(n3.rd);
            Escaped(v * 8 + (n3.ch.code - ZERO), n4.ch, n4.rd)
          else Escaped(v, n3.ch, n3.rd)
        else Escaped(c - ZERO, n2.ch, n2.rd)
      else
        var n2 := Read(n.rd);
        Escaped(NamedEscape(c), n2.ch, n2.rd)
  }

  datatype Quoted = Quoted(text: seq<Code>, stop: Ch, rd: Reader)

  /** A character that ends a string opened by `q` without being part of it. */
  predicate EndsString(q: Code, d: Ch)
  {
    d.Eof? || d.code == q || d.code == LF || d.code == CR
  }

  /**
    The string loop with look-ahead `d`: stop at the closing quote `q`, at
    LF, CR or end of input; decode escapes; take any other character as it
    is.
   */
  function ScanQuoted(q: Code, d: Ch, rd: Reader, acc: seq<Code>): (r: Quoted)
    requires d.Eof? ==> Remaining(rd) == 0
    ensures r.stop.Eof? ==> Remaining(r.rd) == 0
    ensures r.rd.input == rd.input && r.rd.pos >= rd.pos
    ensures EndsString(q, r.stop)
    decreases Weight(rd, d)
  {
    if EndsString(q, d) then Quoted(acc, d, rd)
    else if d.code == BACKSLASH then
      var e := ScanEscape(rd);
      ScanQuoted(q, e.next, e.rd, acc + [e.code])
    else
      var n := Read(rd);
      ScanQuoted(q, n.ch, n.rd, acc + [d.code])
  }

  /** The string loop resumed at `rd`, taking the next character as look-ahead. */
  function ResumeQuoted(q: Code, rd: Reader, acc: seq<Code>): Quoted
  {
    var n := Read(rd);
    ScanQuoted(q, n.ch, n.rd, acc)
  }

  /** The letter of the named escape for the control codes 7-13. */
  function EscapeLetter(c: Code): Code
    requires 7 <= c <= 13
  {
    if c == 7 then 'a' as int
    else if c == 8 then 'b' as int
    else if c == TAB then 't' as int
    else if c == LF then 'n' as int
    else if c == 0xB then 'v' as int
    else if c == 0xC then 'f' as int
    else 'r' as int
  }

  /** A three-digit octal escape for a code below 256. */
  function OctalEscape(c: Code): seq<Code>
    requires c < 256
  {
    [BACKSLASH, ZERO + c / 64, ZERO + (c / 8) % 8, ZERO + c % 8]
  }

  /**
    An escaped spelling of one character inside a string quoted by `q`:
    the quote and the backslash as octal escapes, the control codes 7-13
    as named escapes, everything else as itself.
   */
  function EscapeOne(q: Code, c: Code): seq<Code>
    requires q < 256
  {
    if c == q || c == BACKSLASH then OctalEscape(c)
    else if 7 <= c <= 13 then [BACKSLASH, EscapeLetter(c)]
    else [c]
  }

  /** The escaped spelling of a whole string, the inverse of the string loop. */
  function Escape(q: Code, s: seq<Code>): seq<Code>
    requires q < 256
  {
    if s == [] then [] else EscapeOne(q, s[0]) + Escape(q, s[1..])
  }

  /** The octal digits of a code below 256 put back together. */
  lemma OctalDigits(c: Code)
    requires c < 256
    ensures 0 <= c / 64 <= 3 && 0 <= (c / 8) % 8 < 8 && 0 <= c % 8 < 8
    ensures ((c / 64) * 8 + (c / 8) % 8) * 8 + c % 8 == c
  {
  }

  /** A three-digit octal escape decodes to its code, the first digit being at most `3`. */
  lemma DecodeOctal(c: Code, rd: Reader, rest: seq<Code>)
    requires c < 256
    requires rd.pos <= |rd.input| && rd.input[rd.pos..] == OctalEscape(c) + rest
    ensures ScanEscape(Reader(rd.input, rd.pos + 1))
         == Escaped(c, First(rest), Reader(rd.input, rd.pos + 4 + (if rest == [] then 0 else 1)))
  {
    OctalLayout(c, rd, rest);
    DecodeOctalAt(c, rd.input, rd.pos, rest);
  }

  /** Where the three digits of an octal escape sit in the input. */
  lemma OctalLayout(c: Code, rd: Reader, rest: seq<Code>)
    requires c < 256
    requires rd.pos <= |rd.input| && rd.input[rd.pos..] == OctalEscape(c) + rest
    ensures rd.pos + 4 <= |rd.input| && rd.input[rd.pos + 4..] == rest
    ensures rd.input[rd.pos + 1] == ZERO + c / 64
    ensures rd.input[rd.pos + 2] == ZERO + (c / 8) % 8
    ensures rd.input[rd.pos + 3] == ZERO + c % 8
  {
    var enc := OctalEscape(c);
    assert rd.input[rd.pos..][1] == (enc + rest)[1];
    assert rd.input[rd.pos..][2] == (enc + rest)[2];
    assert rd.input[rd.pos..][3] == (enc + rest)[3];
    Behind(rd, enc, rest);
  }

  /** The escape loop over the three octal digits of `c` at `p + 1`. */
  lemma DecodeOctalAt(c: Code, input: seq<Code>, p: nat, rest: seq<Code>)
    requires c < 256 && p + 4 <= |input| && input[p + 4..] == rest
    requires input[p + 1] == ZERO + c / 64
    requires input[p + 2] == ZERO + (c / 8) % 8
    requires input[p + 3] == ZERO + c % 8
    ensures ScanEscape(Reader(input, p + 1))
         == Escaped(c, First(rest), Reader(input, p + 4 + (if rest == [] then 0 else 1)))
  {
    OctalDigits(c);
    var r1 := Read(Reader(input, p + 1));
    var r2 := Read(r1.rd);
    var r3 := Read(r2.rd);
    var r4 := Read(r3.rd);
    assert r1 == Reading(Chr(ZERO + c / 64), Reader(input, p + 2));
    assert r2 == Reading(Chr(ZERO + (c / 8) % 8), Reader(input, p + 3));
    assert r3 == Reading(Chr(ZERO + c % 8), Reader(input, p + 4));
    if rest == [] {
      assert r4 == Reading(Eof, Reader(input, p + 4));
    } else {
      assert input[p + 4] == rest[0] by { assert input[p + 4..][0] == rest[0]; }
      assert r4 == Reading(Chr(rest[0]), Reader(input, p + 5));
    }
  }

  /** A named escape of a control code 7-13 decodes to that code. */
  lemma DecodeNamed(c: Code, rd: Reader, rest: seq<Code>)
    requires 7 <= c <= 13
    requires rd.pos <= |rd.input| && rd.input[rd.pos..] == [BACKSLASH, EscapeLetter(c)] + rest
    ensures ScanEscape(Reader(rd.input, rd.pos + 1))
         == Escaped(c, First(rest), Reader(rd.input, rd.pos + 2 + (if rest == [] then 0 else 1)))
  {
    var enc := [BACKSLASH, EscapeLetter(c)];
    Advance(rd, enc, rest, 1);
    Advance(rd, enc, rest, 2);
    var p := rd.pos;
    var r1 := Read(Reader(rd.input, p + 1));
    assert r1 == Reading(Chr(EscapeLetter(c)), Reader(rd.input, p + 2));
    assert NamedEscape(EscapeLetter(c)) == c;
    if rest == [] {
      assert Read(r1.rd) == Reading(Eof, Reader(rd.input, p + 2));
    } else {
      assert Read(r1.rd) == Reading(Chr(rest[0]), Reader(rd.input, p + 3));
    }
  }

  predicate AllOctal(ds: seq<Code>)
  {
    forall i :: 0 <= i < |ds| ==> IsOctalDigit(ds[i])
  }

  /** The value of a string of octal digits, most significant first. */
  function OctalValue(ds: seq<Code>): (v: nat)
    requires AllOctal(ds)
    ensures |ds| <= 1 ==> v < 8
    ensures |ds| <= 2 ==> v < 64
    ensures |ds| <= 3 ==> v < 512
  {
    if ds == [] then 0 else 8 * OctalValue(ds[..|ds| - 1]) + (ds[|ds| - 1] - ZERO)
  }

  /**
    An octal escape, `rd` positioned just after the backslash, takes the
    longest run of up to three octal digits `ds`, a third one only when the
    first is `0`-`3`. It decodes to their octal value and hands back the
    character after them: `\12` stands for 10, and `\477` for 39 followed
    by a `7` read as a character of the string.
   */
  lemma ScanEscapeOctal(rd: Reader, ds: seq<Code>, rest: seq<Code>)
    requires rd.pos <= |rd.input| && rd.input[rd.pos..] == ds + rest
    requires 1 <= |ds| <= 3 && AllOctal(ds)
    requires |ds| == 3 ==> ds[0] <= THREE
    requires rest != [] && IsOctalDigit(rest[0]) ==> |ds| == 3 || (|ds| == 2 && ds[0] > THREE)
    ensures ScanEscape(rd) == Escaped(OctalValue(ds), First(rest), Reader(rd.input, rd.pos + |ds| + (if rest == [] then 0 else 1)))
  {
    var nrd := Reader(rd.input, rd.pos + |ds| + (if rest == [] then 0 else 1));
    OctalLayoutRun(rd, ds, rest, nrd);
    OctalValueShort(ds);
    if |ds| == 1 {
      EscapeDigits1(rd, ds[0], OctalValue(ds), First(rest), nrd);
    } else if |ds| == 2 {
      EscapeDigits2(rd, ds[0], ds[1], OctalValue(ds), First(rest), nrd);
    } else {
      EscapeDigits3(rd, ds[0], ds[1], ds[2], OctalValue(ds), First(rest), nrd);
    }
  }

  /** Where the digits of an octal escape, and the character after them, sit in the input. */
  lemma OctalLayoutRun(rd: Reader, ds: seq<Code>, rest: seq<Code>, nrd: Reader)
    requires rd.pos <= |rd.input| && rd.input[rd.pos..] == ds + rest
    requires 1 <= |ds| <= 3
    requires nrd == Reader(rd.input, rd.pos + |ds| + (if rest == [] then 0 else 1))
    ensures rd.pos + |ds| <= |rd.input|
    ensures rd.input[rd.pos] == ds[0]
    ensures |ds| > 1 ==> rd.input[rd.pos + 1] == ds[1]
    ensures |ds| > 2 ==> rd.input[rd.pos + 2] == ds[2]
    ensures Read(Reader(rd.input, rd.pos + |ds|)) == Reading(First(rest), nrd)
  {
    Advance(rd, ds, rest, 0);
    Advance(rd, ds, rest, |ds|);
    if |ds| > 1 { Advance(rd, ds, rest, 1); }
    if |ds| > 2 { Advance(rd, ds, rest, 2); }
  }

  /** The octal value of one, two or three digits written out. */
  lemma OctalValueShort(ds: seq<Code>)
    requires 1 <= |ds| <= 3 && AllOctal(ds)
    ensures |ds| == 1 ==> OctalValue(ds) == ds[0] - ZERO
    ensures |ds| == 2 ==> OctalValue(ds) == (ds[0] - ZERO) * 8 + (ds[1] - ZERO)
    ensures |ds| == 3 ==> OctalValue(ds) == ((ds[0] - ZERO) * 8 + (ds[1] - ZERO)) * 8 + (ds[2] - ZERO)
  {
    assert OctalValue(ds[..1]) == ds[0] - ZERO;
    if |ds| > 1 {
      assert ds[..2][..1] == ds[..1];
      assert OctalValue(ds[..2]) == (ds[0] - ZERO) * 8 + (ds[1] - ZERO);
    }
    if |ds| == 1 {
      assert ds[..1] == ds;
    } else if |ds| == 2 {
      assert ds[..2] == ds;
    } else {
      assert ds[..2] == ds[..|ds| - 1];
    }
  }

  /** The escape loop over one octal digit `d0` at `rd`, followed by `next`. */
  lemma EscapeDigits1(rd: Reader, d0: Code, v: Code, next: Ch, nrd: Reader)
    requires rd.pos < |rd.input| && rd.input[rd.pos] == d0 && IsOctalDigit(d0)
    requires Read(Reader(rd.input, rd.pos + 1)) == Reading(next, nrd)
    requires !(next.Chr? && IsOctalDigit(next.code))
    requires v == d0 - ZERO
    ensures ScanEscape(rd) == Escaped(v, next, nrd)
  {
    assert Read(rd) == Reading(Chr(d0), Reader(rd.input, rd.pos + 1));
  }

  /** The escape loop over two octal digits at `rd`, followed by `next`. */
  lemma EscapeDigits2(rd: Reader, d0: Code, d1: Code, v: Code, next: Ch, nrd: Reader)
    requires rd.pos + 1 < |rd.input| && rd.input[rd.pos] == d0 && rd.input[rd.pos + 1] == d1
    requires IsOctalDigit(d0) && IsOctalDigit(d1)
    requires Read(Reader(rd.input, rd.pos + 2)) == Reading(next, nrd)
    requires !(next.Chr? && IsOctalDigit(next.code) && d0 <= THREE)
    requires v == (d0 - ZERO) * 8 + (d1 - ZERO)
    ensures ScanEscape(rd) == Escaped(v, next, nrd)
  {
    assert Read(rd) == Reading(Chr(d0), Reader(rd.input, rd.pos + 1));
    assert Read(Reader(rd.input, rd.pos + 1)) == Reading(Chr(d1), Reader(rd.input, rd.pos + 2));
  }

  /** The escape loop over three octal digits at `rd`, the first at most `3`, followed by `next`. */
  lemma EscapeDigits3(rd: Reader, d0: Code, d1: Code, d2: Code, v: Code, next: Ch, nrd: Reader)
    requires rd.pos + 2 < |rd.input| && rd.input[rd.pos] == d0 && rd.input[rd.pos + 1] == d1 && rd.input[rd.pos + 2] == d2
    requires IsOctalDigit(d0) && IsOctalDigit(d1) && IsOctalDigit(d2) && d0 <= THREE
    requires Read(Reader(rd.input, rd.pos + 3)) == Reading(next, nrd)
    requires v == ((d0 - ZERO) * 8 + (d1 - ZERO)) * 8 + (d2 - ZERO)
    ensures ScanEscape(rd) == Escaped(v, next, nrd)
  {
    assert Read(rd) == Reading(Chr(d0), Reader(rd.input, rd.pos + 1));
    assert Read(Reader(rd.input, rd.pos + 1)) == Reading(Chr(d1), Reader(rd.input, rd.pos + 2));
    assert Read(Reader(rd.input, rd.pos + 2)) == Reading(Chr(d2), Reader(rd.input, rd.pos + 3));
  }

  /** Any other character after the backslash is an escape by itself, decoded by `NamedEscape`. */
  lemma ScanEscapeNamed(rd: Reader, c: Code, rest: seq<Code>)
    requires rd.pos <= |rd.input| && rd.input[rd.pos..] == [c] + rest
    requires !IsOctalDigit(c)
    ensures ScanEscape(rd) == Escaped(NamedEscape(c), First(rest), Reader(rd.input, rd.pos + 1 + (if rest == [] then 0 else 1)))
  {
    Advance(rd, [c], rest, 0);
    Advance(rd, [c], rest, 1);
    assert Read(rd) == Reading(Chr(c), Reader(rd.input, rd.pos + 1));
  }

  /**
    Round trip of the string loop: reading `Escape(q, s)` followed by a
    character that ends the string yields exactly `s`, and that character
    is handed back.
   */
  lemma {:induction false} ScanQuotedEscape(q: Code, rd: Reader, acc: seq<Code>, s: seq<Code>, rest: seq<Code>)
    requires q < 256 && q != BACKSLASH
    requires rd.pos <= |rd.input| && rd.input[rd.pos..] == Escape(q, s) + rest
    requires EndsString(q, First(rest))
    ensures ResumeQuoted(q, rd, acc) ==
            Quoted(acc + s, First(rest), Reader(rd.input, rd.pos + |Escape(q, s)| + (if rest == [] then 0 else 1)))
    decreases |s|, 1
  {
    if s == [] {
      Advance(rd, [], rest, 0);
      if rest == [] {
        assert Read(rd) == Reading(Eof, rd);
      } else {
        assert Read(rd) == Reading(Chr(rest[0]), Reader(rd.input, rd.pos + 1));
      }
    } else {
      ScanQuotedStep(q, rd, acc, s, rest);
    }
  }

  /** The inductive step of `ScanQuotedEscape`: the first character of `s`, then the rest. */
  lemma {:induction false} ScanQuotedStep(q: Code, rd: Reader, acc: seq<Code>, s: seq<Code>, rest: seq<Code>)
    requires q < 256 && q != BACKSLASH && s != []
    requires rd.pos <= |rd.input| && rd.input[rd.pos..] == Escape(q, s) + rest
    requires EndsString(q, First(rest))
    ensures ResumeQuoted(q, rd, acc) ==
            Quoted(acc + s, First(rest), Reader(rd.input, rd.pos + |Escape(q, s)| + (if rest == [] then 0 else 1)))
    decreases |s|, 0
  {
    var next := ScanQuotedHead(q, rd, acc, s, rest);
    ScanQuotedEscape(q, next, acc + [s[0]], s[1..], rest);
    AppendHead(acc, s);
  }

  /** The first character of `s` is decoded from its spelling at the head of the input. */
  lemma ScanQuotedHead(q: Code, rd: Reader, acc: seq<Code>, s: seq<Code>, rest: seq<Code>) returns (next: Reader)
    requires q < 256 && q != BACKSLASH && s != []
    requires rd.pos <= |rd.input| && rd.input[rd.pos..] == Escape(q, s) + rest
    ensures next.input == rd.input && next.pos == rd.pos + |EscapeOne(q, s[0])|
    ensures next.pos <= |rd.input| && rd.input[next.pos..] == Escape(q, s[1..]) + rest
    ensures |Escape(q, s)| == |EscapeOne(q, s[0])| + |Escape(q, s[1..])|
    ensures ResumeQuoted(q, rd, acc) == ResumeQuoted(q, next, acc + [s[0]])
  {
    var h, t := EscapeLayout(q, rd, s, rest);
    ScanQuotedOne(q, s[0], rd, acc, t + rest);
    next := Reader(rd.input, rd.pos + |h|);
  }

  /** The escaped string is the spelling of its first character followed by the spelling of the others. */
  lemma EscapeLayout(q: Code, rd: Reader, s: seq<Code>, rest: seq<Code>) returns (h: seq<Code>, t: seq<Code>)
    requires q < 256 && s != []
    requires rd.pos <= |rd.input| && rd.input[rd.pos..] == Escape(q, s) + rest
    ensures h == EscapeOne(q, s[0]) && t == Escape(q, s[1..])
    ensures rd.input[rd.pos..] == h + (t + rest)
    ensures rd.pos + |h| <= |rd.input| && rd.input[rd.pos + |h|..] == t + rest
    ensures |Escape(q, s)| == |h| + |t|
  {
    EscapeCons(q, s);
    h, t := EscapeOne(q, s[0]), Escape(q, s[1..]);
    SplitFront(rd, h, t, rest);
  }

  lemma EscapeCons(q: Code, s: seq<Code>)
    requires q < 256 && s != []
    ensures Escape(q, s) == EscapeOne(q, s[0]) + Escape(q, s[1..])
  {
  }

  lemma AppendHead(acc: seq<Code>, s: seq<Code>)
    requires s != []
    ensures acc + [s[0]] + s[1..] == acc + s
  {
    assert [s[0]] + s[1..] == s;
  }

  /** One escaped character is decoded and appended, and the loop resumes after its spelling. */
  lemma ScanQuotedOne(q: Code, c: Code, rd: Reader, acc: seq<Code>, tail: seq<Code>)
    requires q < 256 && q != BACKSLASH
    requires rd.pos <= |rd.input| && rd.input[rd.pos..] == EscapeOne(q, c) + tail
    ensures ResumeQuoted(q, rd, acc) == ResumeQuoted(q, Reader(rd.input, rd.pos + |EscapeOne(q, c)|), acc + [c])
  {
    if c == q || c == BACKSLASH {
      assert EscapeOne(q, c) == OctalEscape(c);
      QuotedOctalOne(q, c, rd, acc, tail);
    } else if 7 <= c <= 13 {
      assert EscapeOne(q, c) == [BACKSLASH, EscapeLetter(c)];
      QuotedNamedOne(q, c, rd, acc, tail);
    } else {
      assert EscapeOne(q, c) == [c];
      QuotedPlainOne(q, c, rd, acc, tail);
    }
  }

  /** Any other character stands for itself inside a string. */
  lemma QuotedPlainOne(q: Code, c: Code, rd: Reader, acc: seq<Code>, tail: seq<Code>)
    requires q < 256 && c != q && c != BACKSLASH && !(7 <= c <= 13)
    requires rd.pos <= |rd.input| && rd.input[rd.pos..] == [c] + tail
    ensures ResumeQuoted(q, rd, acc) == ResumeQuoted(q, Reader(rd.input, rd.pos + 1), acc + [c])
  {
    Lead1(rd, c, tail);
    assert Read(rd) == Reading(Chr(c), Reader(rd.input, rd.pos + 1));
  }

  /** The quote or the backslash, spelled as an octal escape, inside a string. */
  lemma QuotedOctalOne(q: Code, c: Code, rd: Reader, acc: seq<Code>, tail: seq<Code>)
    requires q < 256 && q != BACKSLASH && (c == q || c == BACKSLASH)
    requires rd.pos <= |rd.input| && rd.input[rd.pos..] == OctalEscape(c) + tail
    ensures ResumeQuoted(q, rd, acc) == ResumeQuoted(q, Reader(rd.input, rd.pos + 4), acc + [c])
  {
    Lead1(rd, BACKSLASH, OctalEscape(c)[1..] + tail);
    Behind(rd, OctalEscape(c), tail);
    DecodeOctal(c, rd, tail);
    ResumeAfterEscape(q, rd, acc, c, 4, tail);
  }

  /** A control code 7-13, spelled as a backslash and a letter, inside a string. */
  lemma QuotedNamedOne(q: Code, c: Code, rd: Reader, acc: seq<Code>, tail: seq<Code>)
    requires q < 256 && q != BACKSLASH && 7 <= c <= 13
    requires rd.pos <= |rd.input| && rd.input[rd.pos..] == [BACKSLASH, EscapeLetter(c)] + tail
    ensures ResumeQuoted(q, rd, acc) == ResumeQuoted(q, Reader(rd.input, rd.pos + 2), acc + [c])
  {
    Lead2(rd, BACKSLASH, EscapeLetter(c), tail);
    DecodeNamed(c, rd, tail);
    ResumeAfterEscape(q, rd, acc, c, 2, tail);
  }

  /** An escape spelled in `len` characters and decoded to `c` is appended, the loop resuming after it. */
  lemma ResumeAfterEscape(q: Code, rd: Reader, acc: seq<Code>, c: Code, len: nat, tail: seq<Code>)
    requires q != BACKSLASH && rd.pos < |rd.input| && rd.input[rd.pos] == BACKSLASH
    requires rd.pos + len <= |rd.input| && rd.input[rd.pos + len..] == tail
    requires ScanEscape(Reader(rd.input, rd.pos + 1))
          == Escaped(c, First(tail), Reader(rd.input, rd.pos + len + (if tail == [] then 0 else 1)))
    ensures ResumeQuoted(q, rd, acc) == ResumeQuoted(q, Reader(rd.input, rd.pos + len), acc + [c])
  {
    var after := Reader(rd.input, rd.pos + len);
    assert Read(rd) == Reading(Chr(BACKSLASH), Reader(rd.input, rd.pos + 1));
    if tail == [] {
      assert Read(after) == Reading(Eof, after);
    } else {
      assert rd.input[rd.pos + len] == tail[0];
      assert Read(after) == Reading(Chr(tail[0]), Reader(rd.input, after.pos + 1));
    }
  }

  // ----------------------------------------------------------------------
  // Comments

  /**
    Discard input up to, not including, the next CR or LF: returns that
    terminator (or end of input) as the look-ahead.
   */
  function SkipToLineEnd(rd: Reader): (r: Reading)
    ensures r.rd.input == rd.input && r.rd.pos >= rd.pos
    ensures r.ch.Eof? || IsLineBreak(r.ch.code)
    ensures Weight(r.rd, r.ch) <= Remaining(rd)
    decreases Remaining(rd)
  {
    var n := Read(rd);
    if n.ch.Eof? || IsLineBreak(n.ch.code) then n else SkipToLineEnd(n.rd)
  }

  /** A line comment's text `b` (no CR or LF in it) is discarded up to the terminator in `rest`. */
  lemma {:induction false} SkipToLineEndRun(rd: Reader, b: seq<Code>, rest: seq<Code>)
    requires rd.pos <= |rd.input| && rd.input[rd.pos..] == b + rest
    requires forall i :: 0 <= i < |b| ==> !IsLineBreak(b[i])
    requires rest != [] ==> IsLineBreak(rest[0])
    ensures SkipToLineEnd(rd) ==
      Reading(First(rest), Reader(rd.input, rd.pos + |b| + (if rest == [] then 0 else 1)))
    decreases |b|
  {
    var n := Read(rd);
    if b == [] {
      if rest == [] { assert n.ch == Eof; } else { assert n.ch == Chr(rest[0]); }
    } else {
      assert n.ch == Chr(b[0]);
      assert n.rd.input[n.rd.pos..] == b[1..] + rest by {
        assert rd.input[rd.pos..][1..] == rd.input[rd.pos + 1..];
        assert (b + rest)[1..] == b[1..] + rest;
      }
      SkipToLineEndRun(n.rd, b[1..], rest);
    }
  }

  /** How a block comment ends: at its closing `*` `/`, or at end of input. */
  datatype Block = Closed(rd: Reader, line: nat) | Unclosed(rd: Reader, line: nat)

  /**
    The block comment loop, `prev` being the previously read code (0 at
    the start): it ends after a `/` read right after a `*`, or at end of
    input. A CR, LF or CR-LF pair raises the line counter once. Unlike the
    loop as the source writes it (module `BlockCommentAsWritten`), the
    character after a line terminator is examined like any other.
   */
  function SkipBlockComment(rd: Reader, prev: int, line: nat): (b: Block)
    ensures b.rd.input == rd.input && b.rd.pos >= rd.pos && b.line >= line
    ensures b.Closed? ==> Remaining(b.rd) < Remaining(rd)
    ensures b.Unclosed? ==> Remaining(b.rd) == 0
    decreases Remaining(rd)
  {
    var n := Read(rd);
    match n.ch
    case Eof => Unclosed(n.rd, line)
    case Chr(c) =>
      if c == SLASH && prev == STAR then Closed(n.rd, line)
      else if c == CR then
        var n2 := Read(n.rd);
        if n2.ch == Chr(LF) then SkipBlockComment(n2.rd, LF, line + 1)
        else SkipBlockComment(n.rd, CR, line + 1)
      else SkipBlockComment(n.rd, c, if c == LF then line + 1 else line)
  }

  /**
    A block comment that began reading at `start`, with `prev` the code
    read before it, ends at `end` right after a `*` `/` pair: the `/` is
    the last code read and the `*` the one before it, or `prev` when the
    `/` is the first code read.
   */
  predicate ClosedByPair(input: seq<Code>, start: nat, end: nat, prev: int)
  {
    start < end <= |input| && input[end - 1] == SLASH
    && (if end == start + 1 then prev == STAR else input[end - 2] == STAR)
  }

  /** The corrected loop closes a comment only on a `*` `/` pair. */
  lemma {:induction false} SkipBlockCommentClosesOnPair(rd: Reader, prev: int, line: nat)
    ensures SkipBlockComment(rd, prev, line).Closed? ==>
              ClosedByPair(rd.input, rd.pos, SkipBlockComment(rd, prev, line).rd.pos, prev)
    decreases Remaining(rd)
  {
    var n := Read(rd);
    match n.ch
    case Eof =>
    case Chr(c) =>
      if c == SLASH && prev == STAR {
      } else if c == CR {
        var n2 := Read(n.rd);
        if n2.ch == Chr(LF) {
          SkipBlockCommentClosesOnPair(n2.rd, LF, line + 1);
        } else {
          SkipBlockCommentClosesOnPair(n.rd, CR, line + 1);
        }
      } else {
        SkipBlockCommentClosesOnPair(n.rd, c, if c == LF then line + 1 else line);
      }
  }

  /** `*` `/` does not occur in `[prev] + b`. */
  predicate NoClose(prev: int, b: seq<Code>)
  {
    && (b != [] && b[0] == SLASH ==> prev != STAR)
    && forall i :: 1 <= i < |b| && b[i] == SLASH ==> b[i - 1] != STAR
  }

  lemma NoCloseSuffix(prev: int, b: seq<Code>, k: nat)
    requires NoClose(prev, b) && 1 <= k <= |b|
    ensures NoClose(b[k - 1], b[k..])
  {
    assert forall i :: 0 <= i < |b[k..]| ==> b[k..][i] == b[k + i];
  }

  /** One step of the block comment loop over a CR-LF pair: one line terminator. */
  lemma BlockStepPair(rd: Reader, prev: int, line: nat)
    requires rd.pos + 1 < |rd.input| && rd.input[rd.pos] == CR && rd.input[rd.pos + 1] == LF
    ensures SkipBlockComment(rd, prev, line) == SkipBlockComment(Reader(rd.input, rd.pos + 2), LF, line + 1)
  {
    var n := Read(rd);
    assert n == Reading(Chr(CR), Reader(rd.input, rd.pos + 1));
    assert Read(n.rd) == Reading(Chr(LF), Reader(rd.input, rd.pos + 2));
  }

  /**
    One step of the block comment loop at any other code that does not
    close the comment: it becomes the previous code, a CR or LF raising
    the line counter.
   */
  lemma BlockStepOne(rd: Reader, prev: int, line: nat)
    requires rd.pos < |rd.input| && !(rd.input[rd.pos] == SLASH && prev == STAR)
    requires !(rd.input[rd.pos] == CR && rd.pos + 1 < |rd.input| && rd.input[rd.pos + 1] == LF)
    ensures SkipBlockComment(rd, prev, line)
         == SkipBlockComment(Reader(rd.input, rd.pos + 1), rd.input[rd.pos],
                             if IsLineBreak(rd.input[rd.pos]) then line + 1 else line)
  {
    var n := Read(rd);
    assert n == Reading(Chr(rd.input[rd.pos]), Reader(rd.input, rd.pos + 1));
    if rd.pos + 1 < |rd.input| {
      assert Read(n.rd) == Reading(Chr(rd.input[rd.pos + 1]), Reader(rd.input, rd.pos + 2));
    } else {
      assert Read(n.rd) == Reading(Eof, n.rd);
    }
  }

  /** Where the loop continues after the head of `b`: past a CR-LF pair, or past one code. */
  function TerminatorLength(b: seq<Code>): nat
  {
    if |b| > 1 && b[0] == CR && b[1] == LF then 2 else 1
  }

  /**
    A block comment whose text `b` holds no closing `*` `/` is skipped
    through its closing pair, the line counter raised once per line
    terminator of `b`.
   */
  lemma {:induction false} SkipBlockCommentRun(rd: Reader, prev: int, line: nat, b: seq<Code>, rest: seq<Code>)
    requires rd.pos <= |rd.input| && rd.input[rd.pos..] == b + [STAR, SLASH] + rest
    requires NoClose(prev, b)
    ensures SkipBlockComment(rd, prev, line) == Closed(Reader(rd.input, rd.pos + |b| + 2), line + Breaks(b))
    decreases |b|, 1
  {
    ConcatAssoc(b, [STAR, SLASH], rest);
    if b == [] {
      ClosingPair(rd, prev, line, rest);
    } else {
      var k := TerminatorLength(b);
      SkipBlockCommentRunStep(rd, prev, line, b, rest, k);
      BreaksStep(b);
      assert |b[k..]| == |b| - k;
    }
  }

  /** The closing `*` `/` ends the comment, whatever came before it. */
  lemma ClosingPair(rd: Reader, prev: int, line: nat, rest: seq<Code>)
    requires rd.pos <= |rd.input| && rd.input[rd.pos..] == [] + ([STAR, SLASH] + rest)
    ensures SkipBlockComment(rd, prev, line) == Closed(Reader(rd.input, rd.pos + 2), line)
  {
    assert rd.input[rd.pos] == STAR by { assert rd.input[rd.pos..][0] == STAR; }
    assert rd.input[rd.pos + 1] == SLASH by { assert rd.input[rd.pos..][1] == SLASH; }
    BlockStepOne(rd, prev, line);
    assert Read(Reader(rd.input, rd.pos + 1)) == Reading(Chr(SLASH), Reader(rd.input, rd.pos + 2));
  }

  /** The step of `SkipBlockCommentRun` over the first `k` codes of `b`, the rest by recursion. */
  lemma {:induction false} SkipBlockCommentRunStep(rd: Reader, prev: int, line: nat, b: seq<Code>, rest: seq<Code>, k: nat)
    requires rd.pos <= |rd.input| && rd.input[rd.pos..] == b + ([STAR, SLASH] + rest)
    requires NoClose(prev, b)
    requires b != [] && k == TerminatorLength(b)
    ensures SkipBlockComment(rd, prev, line)
         == Closed(Reader(rd.input, rd.pos + k + |b[k..]| + 2),
                   (if IsLineBreak(b[0]) then line + 1 else line) + Breaks(b[k..]))
    decreases |b|, 0
  {
    BlockLayout(rd, b, [STAR, SLASH] + rest, k);
    NoCloseSuffix(prev, b, k);
    BlockStep(rd, prev, line, b);
    ConcatAssoc(b[k..], [STAR, SLASH], rest);
    SkipBlockCommentRun(Reader(rd.input, rd.pos + k), b[k - 1], if IsLineBreak(b[0]) then line + 1 else line, b[k..], rest);
  }

  /** The first two codes of the unread text `b` + `tail`, and what is left after `k` of them. */
  lemma BlockLayout(rd: Reader, b: seq<Code>, tail: seq<Code>, k: nat)
    requires rd.pos <= |rd.input| && rd.input[rd.pos..] == b + tail
    requires tail != [] && 1 <= k <= |b|
    ensures rd.pos + 1 < |rd.input| && rd.input[rd.pos] == b[0]
    ensures rd.input[rd.pos + 1] == if |b| > 1 then b[1] else tail[0]
    ensures rd.input[rd.pos + k..] == b[k..] + tail
  {
    assert rd.input[rd.pos..][0] == (b + tail)[0];
    assert rd.input[rd.pos..][1] == (b + tail)[1];
    DropDrop(rd.input, rd.pos, k);
    DropConcat(b, tail, k);
  }

  /** Line terminators counted one step at a time, as the block comment loop counts them. */
  lemma BreaksStep(b: seq<Code>)
    requires b != []
    ensures Breaks(b) == (if IsLineBreak(b[0]) then 1 else 0) + Breaks(b[TerminatorLength(b)..])
  {
  }

  /** One step of the block comment loop over the head of the unread text `b`, which does not close the comment. */
  lemma BlockStep(rd: Reader, prev: int, line: nat, b: seq<Code>)
    requires rd.pos < |rd.input| && b != [] && rd.input[rd.pos] == b[0]
    requires rd.pos + 1 < |rd.input| && |b| > 1 ==> rd.input[rd.pos + 1] == b[1]
    requires |b| > 1 ==> rd.pos + 1 < |rd.input|
    requires |b| == 1 && rd.pos + 1 < |rd.input| ==> rd.input[rd.pos + 1] != LF
    requires !(b[0] == SLASH && prev == STAR)
    ensures var k := TerminatorLength(b);
      SkipBlockComment(rd, prev, line)
        == SkipBlockComment(Reader(rd.input, rd.pos + k), b[k - 1], if IsLineBreak(b[0]) then line + 1 else line)
  {
    if TerminatorLength(b) == 2 {
      BlockStepPair(rd, prev, line);
    } else {
      BlockStepOne(rd, prev, line);
    }
  }

  /**
    A block comment never closed by a `*` `/` runs to the end of input,
    the line counter raised once per line terminator on the way.
   */
  lemma {:induction false} SkipBlockCommentUnclosed(rd: Reader, prev: int, line: nat)
    requires rd.pos <= |rd.input| && NoClose(prev, rd.input[rd.pos..])
    ensures SkipBlockComment(rd, prev, line) == Unclosed(Reader(rd.input, |rd.input|), line + Breaks(rd.input[rd.pos..]))
    decreases Remaining(rd), 1
  {
    if rd.pos == |rd.input| {
      assert Read(rd) == Reading(Eof, rd);
      assert rd.input[rd.pos..] == [];
    } else {
      UnclosedStep(rd, prev, line, rd.input[rd.pos..], TerminatorLength(rd.input[rd.pos..]));
    }
  }

  /** The step of `SkipBlockCommentUnclosed` over the first `k` codes of the remaining text `b`. */
  lemma {:induction false} UnclosedStep(rd: Reader, prev: int, line: nat, b: seq<Code>, k: nat)
    requires rd.pos <= |rd.input| && rd.input[rd.pos..] == b && NoClose(prev, b)
    requires b != [] && k == TerminatorLength(b)
    ensures SkipBlockComment(rd, prev, line) == Unclosed(Reader(rd.input, |rd.input|), line + Breaks(b))
    decreases Remaining(rd), 0
  {
    assert rd.input[rd.pos] == b[0] by { assert rd.input[rd.pos..][0] == b[0]; }
    if |b| > 1 {
      assert rd.input[rd.pos + 1] == b[1] by { assert rd.input[rd.pos..][1] == b[1]; }
    }
    DropDrop(rd.input, rd.pos, k);
    NoCloseSuffix(prev, b, k);
    var line' := if IsLineBreak(b[0]) then line + 1 else line;
    BlockStep(rd, prev, line, b);
    BreaksStep(b);
    SkipBlockCommentUnclosed(Reader(rd.input, rd.pos + k), b[k - 1], line');
  }
}
