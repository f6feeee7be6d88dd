/**
  The 256-entry character classification table and its mutators.

  Each entry is a set of syntax-class flags. Some mutators or a flag into an
  entry, others overwrite the entry; every range is clamped to [0, 255] and
  single-character setters ignore codes outside that range.
 */
module SyntaxTable {
  import opened Chars

  /** An entry of the table, one byte as in the source's `Uint8Array`. */
  type Flags = bv8

  const CT_WHITESPACE: Flags := 1
  const CT_DIGIT: Flags := 2
  const CT_ALPHA: Flags := 4
  const CT_QUOTE: Flags := 8
  const CT_COMMENT: Flags := 16

  const SIZE: nat := 256

  type Table = t: seq<Flags> | |t| == SIZE witness seq(SIZE, _ => 0)

  predicate Has(f: Flags, flag: Flags)
  {
    f & flag != 0
  }

  /** The class of a code during scanning: its entry below 256, ALPHA above. */
  function Class(t: Table, c: Code): Flags
  {
    if c < SIZE then t[c] else CT_ALPHA
  }

  function Max(a: int, b: int): int { if a < b then b else a }

  function Min(a: int, b: int): int { if a < b then a else b }

  /** The codes a range mutator given `low` and `hi` touches, after clamping. */
  predicate InRange(low: int, hi: int, i: int)
  {
    Max(low, 0) <= i <= Min(hi, SIZE - 1)
  }

  /** How a mutator changes one entry: or a flag in, or overwrite the entry. */
  datatype Edit = OrIn(flag: Flags) | Assign(flags: Flags)

  function Apply(e: Edit, f: Flags): Flags
  {
    match e
    case OrIn(flag) => f | flag
    case Assign(flags) => flags
  }

  /** The effect of the loop `while (lo <= hi) ctype[lo++] ...` shared by the range mutators. */
  function Fill(t: Table, lo: int, hi: int, e: Edit): (r: Table)
    ensures forall i :: 0 <= i < SIZE ==> r[i] == if lo <= i <= hi then Apply(e, t[i]) else t[i]
  {
    seq(SIZE, i requires 0 <= i < SIZE => if lo <= i <= hi then Apply(e, t[i]) else t[i])
  }

  /** A table with every entry cleared: the state a new tokenizer starts in. */
  function ResetSyntax(): (t: Table)
    ensures forall i :: 0 <= i < SIZE ==> t[i] == 0
  {
    seq(SIZE, _ => 0)
  }

  /** Or ALPHA into every code of the clamped range. */
  function WordChars(t: Table, low: int, hi: int): (r: Table)
    ensures forall i :: 0 <= i < SIZE ==>
      r[i] == if InRange(low, hi, i) then t[i] | CT_ALPHA else t[i]
  {
    Fill(t, Max(low, 0), Min(hi, SIZE - 1), OrIn(CT_ALPHA))
  }

  /** Overwrite every code of the clamped range with WHITESPACE alone. */
  function WhitespaceChars(t: Table, low: int, hi: int): (r: Table)
    ensures forall i :: 0 <= i < SIZE ==>
      r[i] == if InRange(low, hi, i) then CT_WHITESPACE else t[i]
  {
    Fill(t, Max(low, 0), Min(hi, SIZE - 1), Assign(CT_WHITESPACE))
  }

  /** Clear every flag of every code of the clamped range. */
  function OrdinaryChars(t: Table, low: int, hi: int): (r: Table)
    ensures forall i :: 0 <= i < SIZE ==>
      r[i] == if InRange(low, hi, i) then 0 else t[i]
  {
    Fill(t, Max(low, 0), Min(hi, SIZE - 1), Assign(0))
  }

  /** Overwrite the entry of one code, ignoring codes outside the table. */
  function SetEntry(t: Table, ch: int, f: Flags): (r: Table)
    ensures forall i :: 0 <= i < SIZE ==> r[i] == if i == ch then f else t[i]
    ensures !(0 <= ch < SIZE) ==> r == t
  {
    if 0 <= ch < SIZE then t[ch := f] else t
  }

  function OrdinaryChar(t: Table, ch: int): (r: Table)
    ensures forall i :: 0 <= i < SIZE ==> r[i] == if i == ch then 0 else t[i]
    ensures !(0 <= ch < SIZE) ==> r == t
  {
    SetEntry(t, ch, 0)
  }

  function CommentChar(t: Table, ch: int): (r: Table)
    ensures forall i :: 0 <= i < SIZE ==> r[i] == if i == ch then CT_COMMENT else t[i]
    ensures !(0 <= ch < SIZE) ==> r == t
  {
    SetEntry(t, ch, CT_COMMENT)
  }

  function QuoteChar(t: Table, ch: int): (r: Table)
    ensures forall i :: 0 <= i < SIZE ==> r[i] == if i == ch then CT_QUOTE else t[i]
    ensures !(0 <= ch < SIZE) ==> r == t
  {
    SetEntry(t, ch, CT_QUOTE)
  }

  /** Or `flag` into every code of [lo, hi]. */
  function OrRange(t: Table, lo: int, hi: int, flag: Flags): (r: Table)
    ensures forall i :: 0 <= i < SIZE ==> r[i] == if lo <= i <= hi then t[i] | flag else t[i]
  {
    Fill(t, lo, hi, OrIn(flag))
  }

  /** Or DIGIT into the entries of the decimal digits, `.` and `-`. */
  function ParseNumbers(t: Table): (r: Table)
    ensures forall i :: 0 <= i < SIZE ==>
      r[i] == if ZERO <= i <= NINE || i == DOT || i == DASH then t[i] | CT_DIGIT else t[i]
  {
    var digits := OrRange(t, ZERO, NINE, CT_DIGIT);
    var withDot := digits[DOT := t[DOT] | CT_DIGIT];
    withDot[DASH := t[DASH] | CT_DIGIT]
  }

  predicate IsAsciiLetter(i: int)
  {
    'a' as int <= i <= 'z' as int || 'A' as int <= i <= 'Z' as int
  }

  /**
    The entry `setDefaultSyntax` leaves at code `i` whose entry was `f`:
    later setters win over earlier ones where they overwrite, and the
    or-ing setters keep what was there.
   */
  function DefaultEntry(f: Flags, i: int): Flags
  {
    var word := if IsAsciiLetter(i) || 160 <= i then f | CT_ALPHA else f;
    var blank := if 0 <= i <= 32 then CT_WHITESPACE else word;
    var delim := if i == SLASH then CT_COMMENT else if i == DQUOTE || i == SQUOTE then CT_QUOTE else blank;
    if ZERO <= i <= NINE || i == DOT || i == DASH then delim | CT_DIGIT else delim
  }

  /**
    The conventional syntax, applied on top of whatever the table holds:
    whitespace for 0-32, comment for `/`, quote for both quote marks, DIGIT
    added to the number characters and ALPHA added to the ASCII letters and
    to 160-255; every other entry is kept.
   */
  function SetDefaultSyntax(t: Table): (r: Table)
    ensures forall i :: 0 <= i < SIZE ==> r[i] == DefaultEntry(t[i], i)
  {
    var t1 := WordChars(t, 'a' as int, 'z' as int);
    var t2 := WordChars(t1, 'A' as int, 'Z' as int);
    var t3 := WordChars(t2, 128 + 32, 255);
    var t4 := WhitespaceChars(t3, 0, ' ' as int);
    var t5 := CommentChar(t4, SLASH);
    var t6 := QuoteChar(t5, DQUOTE);
    var t7 := QuoteChar(t6, SQUOTE);
    var r := ParseNumbers(t7);
    forall i | 0 <= i < SIZE
      ensures r[i] == DefaultEntry(t[i], i)
    {
      assert t1[i] == if 'a' as int <= i <= 'z' as int then t[i] | CT_ALPHA else t[i];
      assert t2[i] == if 'A' as int <= i <= 'Z' as int then t1[i] | CT_ALPHA else t1[i];
      assert t3[i] == if 160 <= i then t2[i] | CT_ALPHA else t2[i];
      assert t4[i] == if i <= 32 then CT_WHITESPACE else t3[i];
      assert t5[i] == if i == SLASH then CT_COMMENT else t4[i];
      assert t6[i] == if i == DQUOTE then CT_QUOTE else t5[i];
      assert t7[i] == if i == SQUOTE then CT_QUOTE else t6[i];
    }
    r
  }

  /** The range mutators are idempotent: applying one twice is applying it once. */
  lemma RangeMutatorsIdempotent(t: Table, low: int, hi: int)
    ensures WordChars(WordChars(t, low, hi), low, hi) == WordChars(t, low, hi)
    ensures WhitespaceChars(WhitespaceChars(t, low, hi), low, hi) == WhitespaceChars(t, low, hi)
    ensures OrdinaryChars(OrdinaryChars(t, low, hi), low, hi) == OrdinaryChars(t, low, hi)
  {
    var w := WordChars(t, low, hi);
    assert WordChars(w, low, hi) == w by {
      forall i | 0 <= i < SIZE ensures WordChars(w, low, hi)[i] == w[i] {
        assert WordChars(w, low, hi)[i] == if InRange(low, hi, i) then w[i] | CT_ALPHA else w[i];
      }
    }
    var s := WhitespaceChars(t, low, hi);
    assert WhitespaceChars(s, low, hi) == s by {
      assert forall i :: 0 <= i < SIZE ==> WhitespaceChars(s, low, hi)[i] == s[i];
    }
    var o := OrdinaryChars(t, low, hi);
    assert OrdinaryChars(o, low, hi) == o by {
      assert forall i :: 0 <= i < SIZE ==> OrdinaryChars(o, low, hi)[i] == o[i];
    }
  }

  /** The single-character setters are idempotent. */
  lemma CharSettersIdempotent(t: Table, ch: int)
    ensures OrdinaryChar(OrdinaryChar(t, ch), ch) == OrdinaryChar(t, ch)
    ensures CommentChar(CommentChar(t, ch), ch) == CommentChar(t, ch)
    ensures QuoteChar(QuoteChar(t, ch), ch) == QuoteChar(t, ch)
  {
  }

  /** `parseNumbers` is idempotent. */
  lemma ParseNumbersIdempotent(t: Table)
    ensures ParseNumbers(ParseNumbers(t)) == ParseNumbers(t)
  {
    var p := ParseNumbers(t);
    forall i | 0 <= i < SIZE ensures ParseNumbers(p)[i] == p[i] {
      assert ParseNumbers(p)[i] == if ZERO <= i <= NINE || i == DOT || i == DASH then p[i] | CT_DIGIT else p[i];
    }
  }

  /** `setDefaultSyntax` is idempotent. */
  lemma DefaultSyntaxIdempotent(t: Table)
    ensures SetDefaultSyntax(SetDefaultSyntax(t)) == SetDefaultSyntax(t)
  {
    var d := SetDefaultSyntax(t);
    forall i | 0 <= i < SIZE ensures SetDefaultSyntax(d)[i] == d[i] {
      DefaultEntryIdempotent(t[i], i);
    }
  }

  lemma DefaultEntryIdempotent(f: Flags, i: int)
    ensures DefaultEntry(DefaultEntry(f, i), i) == DefaultEntry(f, i)
  {
    var word := if IsAsciiLetter(i) || 160 <= i then f | CT_ALPHA else f;
    assert word | CT_ALPHA == word || !(IsAsciiLetter(i) || 160 <= i);
  }

  /**
    Starting from a cleared table, the conventional syntax classifies the
    ASCII letters and 160-255 as word characters, 0-32 as whitespace, `/`
    as a comment character, both quote marks as quotes, the digits, `.` and
    `-` as number characters, and leaves everything else ordinary.
   */
  lemma DefaultSyntaxFromReset()
    ensures var t := SetDefaultSyntax(ResetSyntax());
      && (forall i :: 0 <= i <= 32 ==> t[i] == CT_WHITESPACE)
      && (forall i :: IsAsciiLetter(i) || 160 <= i < SIZE ==> t[i] == CT_ALPHA)
      && (forall i :: ZERO <= i <= NINE || i == DOT || i == DASH ==> t[i] == CT_DIGIT)
      && t[SLASH] == CT_COMMENT && t[DQUOTE] == CT_QUOTE && t[SQUOTE] == CT_QUOTE
      && (forall i ::
            && 32 < i < 160 && !IsAsciiLetter(i) && !(ZERO <= i <= NINE)
            && i != DOT && i != DASH && i != SLASH && i != DQUOTE && i != SQUOTE
            ==> t[i] == 0)
  {
    var t := SetDefaultSyntax(ResetSyntax());
    forall i | 0 <= i < SIZE ensures t[i] == DefaultEntry(0, i) {
      assert ResetSyntax()[i] == 0;
    }
  }

  /**
    A range mutator touches exactly the clamped range: codes outside it keep
    their entry, and a range lying entirely outside [0, 255] changes nothing.
   */
  lemma RangeMutatorsClamp(t: Table, low: int, hi: int)
    requires hi < 0 || low >= SIZE || hi < low
    ensures WordChars(t, low, hi) == t
    ensures WhitespaceChars(t, low, hi) == t
    ensures OrdinaryChars(t, low, hi) == t
  {
    assert forall i :: 0 <= i < SIZE ==> !InRange(low, hi, i);
  }
}
