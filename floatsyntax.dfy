/** The strings Python's `float()` accepts. The analytics page converts
    every non-blank answer of a number or date field with `float` to
    average them (main.py, line 295), and a string it rejects raises
    `ValueError`. The argument may be surrounded by white space and may
    carry a sign; it is then either `inf`, `infinity` or `nan` in any
    letter case, or a decimal numeral whose digit groups may be joined by
    single underscores, with an optional fraction and an optional exponent.
    The grammar is regular, so it is given here as a scanner that reads one
    character at a time. */
module FloatSyntax {
  import opened Wrappers

  predicate IsDigit(c: char)
  {
    '0' <= c <= '9'
  }

  predicate AllDigits(s: string)
  {
    forall i :: 0 <= i < |s| ==> IsDigit(s[i])
  }

  /** The white space `float` strips: the ASCII space and tab through
      carriage return, and the non-ASCII characters `str.isspace` accepts,
      which `float` first turns into spaces. The ASCII separators U+001C to
      U+001F, which `str.isspace` also accepts, are left as they are and so
      are refused. */
  predicate IsSpace(c: char)
  {
    || c == ' ' || '\t' <= c <= '\r'
    || c == '\U{85}' || c == '\U{A0}' || c == '\U{1680}' || '\U{2000}' <= c <= '\U{200A}'
    || c == '\U{2028}' || c == '\U{2029}' || c == '\U{202F}' || c == '\U{205F}' || c == '\U{3000}'
  }

  predicate AllSpaces(s: string)
  {
    forall i :: 0 <= i < |s| ==> IsSpace(s[i])
  }

  function LowerAscii(c: char): (r: char)
  {
    if 'A' <= c <= 'Z' then (c as int + 32) as char else c
  }

  /** The special words: `inf`, which may go on to `infinity`, and `nan`. */
  datatype Word = Infinity | NotANumber

  function Spelling(w: Word): string
  {
    match w
    case Infinity => "infinity"
    case NotANumber => "nan"
  }

  /** Where the scanner stands after a prefix of the argument. */
  datatype Scan =
    | Lead          // only white space so far
    | Signed        // a sign after the leading white space
    | Int           // integer digits, the last one a digit
    | IntGap        // integer digits followed by an underscore
    | Dot           // a point with no digits before it
    | Point         // integer digits and a point
    | Frac          // fraction digits, the last one a digit
    | FracGap       // fraction digits followed by an underscore
    | ExpMark       // `e` or `E` after a mantissa
    | ExpSign       // the exponent's sign
    | Exp           // exponent digits, the last one a digit
    | ExpGap        // exponent digits followed by an underscore
    | Letters(word: Word, count: nat)  // the first `count` letters of a word
    | Trail         // white space after a complete value

  /** The states in which the argument may end. */
  predicate Final(st: Scan)
  {
    match st
    case Int => true
    case Point => true
    case Frac => true
    case Exp => true
    case Trail => true
    case Letters(w, k) => k == 3 || k == |Spelling(w)|
    case _ => false
  }

  /** One character: the next state, or `None` when the character cannot
      continue a value from this state. */
  function Step(st: Scan, c: char): (r: Option<Scan>)
  {
    match st
    case Lead =>
      if IsSpace(c) then Some(Lead)
      else if c == '+' || c == '-' then Some(Signed)
      else Start(c)
    case Signed => Start(c)
    case Int =>
      if IsDigit(c) then Some(Int)
      else if c == '_' then Some(IntGap)
      else if c == '.' then Some(Point)
      else if c == 'e' || c == 'E' then Some(ExpMark)
      else if IsSpace(c) then Some(Trail)
      else None
    case IntGap => if IsDigit(c) then Some(Int) else None
    case Dot => if IsDigit(c) then Some(Frac) else None
    case Point =>
      if IsDigit(c) then Some(Frac)
      else if c == 'e' || c == 'E' then Some(ExpMark)
      else if IsSpace(c) then Some(Trail)
      else None
    case Frac =>
      if IsDigit(c) then Some(Frac)
      else if c == '_' then Some(FracGap)
      else if c == 'e' || c == 'E' then Some(ExpMark)
      else if IsSpace(c) then Some(Trail)
      else None
    case FracGap => if IsDigit(c) then Some(Frac) else None
    case ExpMark =>
      if c == '+' || c == '-' then Some(ExpSign)
      else if IsDigit(c) then Some(Exp)
      else None
    case ExpSign => if IsDigit(c) then Some(Exp) else None
    case Exp =>
      if IsDigit(c) then Some(Exp)
      else if c == '_' then Some(ExpGap)
      else if IsSpace(c) then Some(Trail)
      else None
    case ExpGap => if IsDigit(c) then Some(Exp) else None
    case Letters(w, k) =>
      if k < |Spelling(w)| && LowerAscii(c) == Spelling(w)[k] then Some(Letters(w, k + 1))
      else if IsSpace(c) && Final(st) then Some(Trail)
      else None
    case Trail => if IsSpace(c) then Some(Trail) else None
  }

  /** The first character of the value proper, after any sign. */
  function Start(c: char): (r: Option<Scan>)
  {
    if IsDigit(c) then Some(Int)
    else if c == '.' then Some(Dot)
    else if LowerAscii(c) == 'i' then Some(Letters(Infinity, 1))
    else if LowerAscii(c) == 'n' then Some(Letters(NotANumber, 1))
    else None
  }

  /** The state after reading all of `s` from `st`, or `None` once a
      character is refused. */
  function Run(st: Scan, s: string): (r: Option<Scan>)
    decreases |s|
  {
    if s == [] then Some(st)
    else match Step(st, s[0])
      case None => None
      case Some(next) => Run(next, s[1..])
  }

  /** `float(s)` returns instead of raising. */
  predicate ParsesAsFloat(s: string)
    ensures ParsesAsFloat(s) ==> |s| > 0
  {
    var r := Run(Lead, s);
    r.Some? && Final(r.value)
  }

  // ---------------------------------------------------------------------
  // Consequences.

  /** Reading `a + b` is reading `a`, then `b`. */
  lemma {:induction false} RunAppend(st: Scan, a: string, b: string)
    ensures Run(st, a + b) == match Run(st, a)
                              case None => None
                              case Some(m) => Run(m, b)
    decreases |a|
  {
    if a != [] {
      assert (a + b)[0] == a[0] && (a + b)[1..] == a[1..] + b;
      match Step(st, a[0])
      case None =>
      case Some(next) => RunAppend(next, a[1..], b);
    } else {
      assert a + b == b;
    }
  }

  /** Digits keep a digit-reading state where it is. */
  lemma {:induction false} RunDigits(st: Scan, d: string)
    requires st == Int || st == Frac || st == Exp
    requires AllDigits(d)
    ensures Run(st, d) == Some(st)
    decreases |d|
  {
    if d != [] {
      RunDigits(st, d[1..]);
    }
  }

  /** White space is skipped before the value. */
  lemma {:induction false} RunLeadingSpaces(p: string)
    requires AllSpaces(p)
    ensures Run(Lead, p) == Some(Lead)
    decreases |p|
  {
    if p != [] {
      RunLeadingSpaces(p[1..]);
    }
  }

  /** White space after the value is accepted exactly when the value is
      complete. */
  lemma {:induction false} RunTrailingSpaces(st: Scan, q: string)
    requires AllSpaces(q)
    ensures (Run(st, q).Some? && Final(Run(st, q).value)) <==> Final(st)
    decreases |q|
  {
    if q != [] {
      StepSpace(st, q[0]);
      match Step(st, q[0])
      case None =>
      case Some(next) =>
        RunTrailingSpaces(next, q[1..]);
    }
  }

  /** A white-space character keeps the scanner before the value, ends a
      complete value, and is refused anywhere else. */
  lemma StepSpace(st: Scan, c: char)
    requires IsSpace(c)
    ensures Step(st, c) == if st == Lead then Some(Lead) else if Final(st) then Some(Trail) else None
  {
  }

  /** `float` ignores the white space around its argument. */
  lemma Unpadded(p: string, s: string, q: string)
    requires AllSpaces(p) && AllSpaces(q)
    ensures ParsesAsFloat(p + s + q) <==> ParsesAsFloat(s)
  {
    RunLeadingSpaces(p);
    RunAppend(Lead, p, s + q);
    assert p + s + q == p + (s + q);
    RunAppend(Lead, s, q);
    if Run(Lead, s).Some? {
      RunTrailingSpaces(Run(Lead, s).value, q);
    }
  }

  /** An optional sign and digits leave the scanner in the integer part. */
  lemma SignedDigits(sign: string, i: string)
    requires sign == "" || sign == "+" || sign == "-"
    requires |i| > 0 && AllDigits(i)
    ensures Run(Lead, sign + i) == Some(Int)
  {
    var st := if sign == "" then Lead else Signed;
    assert Run(Lead, sign) == Some(st);
    assert Step(st, i[0]) == Some(Int);
    RunDigits(Int, i[1..]);
    assert i == [i[0]] + i[1..];
    RunAppend(Lead, sign, i);
    RunAppend(st, [i[0]], i[1..]);
  }

  /** Integers and decimal fractions such as "42", "-7" and "3.25" are
      accepted. */
  lemma DecimalAccepted(sign: string, i: string, f: string)
    requires sign == "" || sign == "+" || sign == "-"
    requires |i| > 0 && AllDigits(i) && AllDigits(f)
    ensures ParsesAsFloat(sign + i)
    ensures ParsesAsFloat(sign + i + "." + f)
  {
    SignedDigits(sign, i);
    RunAppend(Lead, sign + i, "." + f);
    assert sign + i + "." + f == (sign + i) + ("." + f);
    assert ("." + f)[1..] == f;
    if f != [] {
      assert f == [f[0]] + f[1..];
      RunDigits(Frac, f[1..]);
      RunAppend(Point, [f[0]], f[1..]);
    }
  }

  /** Digits followed by a hyphen are rejected, whatever comes after. */
  lemma DigitsThenHyphenRejected(y: string, rest: string)
    requires |y| > 0 && AllDigits(y)
    ensures !ParsesAsFloat(y + "-" + rest)
  {
    SignedDigits("", y);
    assert "" + y == y;
    RunAppend(Lead, y, "-" + rest);
    assert y + "-" + rest == y + ("-" + rest);
  }

  /** A calendar date written as year, month and day joined by hyphens
      (the value an HTML date input submits, such as "2024-05-01") is
      rejected. */
  lemma IsoDateRejected(y: string, m: string, d: string)
    requires |y| > 0 && AllDigits(y)
    requires |m| > 0 && AllDigits(m)
    requires |d| > 0 && AllDigits(d)
    ensures !ParsesAsFloat(y + "-" + m + "-" + d)
  {
    assert y + "-" + m + "-" + d == y + "-" + (m + "-" + d);
    DigitsThenHyphenRejected(y, m + "-" + d);
  }

  /** A blank made of white space only is rejected. */
  lemma SpacesRejected(s: string)
    requires AllSpaces(s)
    ensures !ParsesAsFloat(s)
  {
    RunLeadingSpaces(s);
  }

  /** An ASCII information separator such as U+001C is not white space to
      `float`, so any string that starts with one, such as a number after
      it, is rejected. */
  lemma SeparatorRejected(i: string)
    ensures !ParsesAsFloat("\U{1C}" + i)
  {
    assert Step(Lead, '\U{1C}') == None;
    RunAppend(Lead, "\U{1C}", i);
  }
}
