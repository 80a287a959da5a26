/**
 What _putf prints, _getf reads back.
 */
module PrintScan {
  import opened Machine
  import opened Printf
  import opened Scanf

  // --- Numerals ---

  /** A digit of the base, in either case. */
  predicate DigitOf(ch: char, base: nat) {
    ('0' <= ch <= '9' || 'a' <= ch <= 'f' || 'A' <= ch <= 'F') && DigitValue(ch) < base
  }

  predicate AllDigits(t: string, base: nat) {
    forall i :: 0 <= i < |t| ==> DigitOf(t[i], base)
  }

  lemma DigitCharValue(d: nat, upper: bool)
    requires d < 16
    ensures DigitValue(DigitChar(d, upper)) == d && DigitOf(DigitChar(d, upper), d + 1)
    ensures d > 0 ==> DigitChar(d, upper) != '0'
    ensures d < 10 ==> '0' <= DigitChar(d, upper) <= '9'
  {
    assert "0123456789ABCDEF"[d] == if d < 10 then ('0' as int + d) as char else ('A' as int + d - 10) as char;
    assert "0123456789abcdef"[d] == if d < 10 then ('0' as int + d) as char else ('a' as int + d - 10) as char;
  }

  lemma {:induction false} NumeralDigits(n: nat, base: nat, upper: bool)
    requires base == 8 || base == 10 || base == 16
    ensures AllDigits(Numeral(n, base, upper), base)
    ensures Numeral(n, base, upper)[0] != '0' <==> n > 0
    ensures n == 0 ==> Numeral(n, base, upper) == "0"
    decreases n
  {
    hide DigitChar, DigitOf, DigitValue;
    DigitsAre(base, upper);
    if n >= base {
      NumeralDigits(n / base, base, upper);
    }
  }

  lemma DigitsAre(base: nat, upper: bool)
    requires base <= 16
    ensures forall d: nat :: d < base ==> DigitOf(DigitChar(d, upper), base) && (DigitChar(d, upper) == '0' <==> d == 0)
  {
    forall d: nat | d < base ensures DigitOf(DigitChar(d, upper), base) && (DigitChar(d, upper) == '0' <==> d == 0) {
      DigitCharValue(d, upper);
    }
  }

  /** The value of a run of digits that ends with t, counted from the front. */
  lemma {:induction false} DigitsAppend(s: string, t: string, base: nat, acc: nat)
    requires AllDigits(s, base)
    ensures DigitsValue(s + t, 0, base, acc) == DigitsValue(t, 0, base, DigitsValue(s, 0, base, acc))
    decreases |s|
  {
    hide DigitsValue;
    if s == "" {
      assert s + t == t;
      NoDigits(base, acc);
    } else {
      DigitIsOf(s[0], base);
      var v := acc * base + DigitValue(s[0]);
      DigitsShift(s + t, base, acc);
      DigitsShift(s, base, acc);
      assert (s + t)[1..] == s[1..] + t;
      DigitsAppend(s[1..], t, base, v);
    }
  }

  lemma NoDigits(base: nat, acc: nat)
    ensures DigitsValue("", 0, base, acc) == acc
  {
  }

  lemma DigitIsOf(ch: char, base: nat)
    requires DigitOf(ch, base)
    ensures DigitValue(ch) < base
  {
  }

  lemma DigitsShift(s: string, base: nat, acc: nat)
    requires s != "" && DigitValue(s[0]) < base
    ensures DigitsValue(s, 0, base, acc) == DigitsValue(s[1..], 0, base, acc * base + DigitValue(s[0]))
  {
    DigitsFrom(s, 1, base, acc * base + DigitValue(s[0]));
  }

  lemma {:induction false} DigitsFrom(s: string, i: nat, base: nat, acc: nat)
    requires i <= |s|
    ensures DigitsValue(s, i, base, acc) == DigitsValue(s[i..], 0, base, acc)
    decreases |s| - i
  {
    DigitsSplit(s, i, 0, base, acc);
  }

  lemma {:induction false} DigitsSplit(s: string, i: nat, k: nat, base: nat, acc: nat)
    requires i + k <= |s|
    ensures DigitsValue(s, i + k, base, acc) == DigitsValue(s[i..], k, base, acc)
    decreases |s| - i - k
  {
    if i + k < |s| && DigitValue(s[i + k]) < base {
      DigitsSplit(s, i, k + 1, base, acc * base + DigitValue(s[i + k]));
    }
  }

  /** A numeral has the value it was made from. */
  lemma {:induction false} NumeralValue(n: nat, base: nat, upper: bool)
    requires base == 8 || base == 10 || base == 16
    ensures DigitsValue(Numeral(n, base, upper), 0, base, 0) == n
    decreases n
  {
    hide DigitChar, DigitsValue, DigitValue, DigitOf;
    Divided(n, base);
    if n < base {
      DigitCharValue(n, upper);
      OneDigit(DigitChar(n, upper), base, 0);
    } else {
      DigitCharValue(n % base, upper);
      NumeralValue(n / base, base, upper);
      NumeralDigits(n / base, base, upper);
      DigitsAppend(Numeral(n / base, base, upper), [DigitChar(n % base, upper)], base, 0);
      OneDigit(DigitChar(n % base, upper), base, n / base);
    }
  }

  lemma Divided(n: nat, base: nat)
    requires base > 0
    ensures n / base * base + n % base == n
  {
  }

  lemma OneDigit(ch: char, base: nat, acc: nat)
    requires DigitValue(ch) < base
    ensures DigitsValue([ch], 0, base, acc) == acc * base + DigitValue(ch)
  {
  }

  lemma {:induction false} NumeralLength(n: nat, base: nat, upper: bool, k: nat)
    requires (base == 8 || base == 10 || base == 16) && k > 0 && n < Eight(k)
    ensures |Numeral(n, base, upper)| <= k
    decreases k
  {
    if n >= base {
      TakesDigit(n, base, k);
      LargeQuotient(n, base);
      NumeralLength(n / base, base, upper, k - 1);
    }
  }

  // --- The lexer on a number that is followed by a space or by the end ---

  predicate HasAt(input: string, p: nat, t: string) {
    p + |t| <= |input| && input[p..p + |t|] == t && '\0' !in t
  }

  predicate Ends(input: string, e: nat) {
    At(input, e) == '\0' || At(input, e) == ' '
  }

  /** The lexer has looked at the space, but not used it. */
  function AfterText(input: string, e: nat, last: char): In {
    if At(input, e) == '\0' then In(e, last, false) else In(e + 1, ' ', true)
  }

  lemma CharAt(input: string, p: nat, t: string, k: nat)
    requires HasAt(input, p, t) && k < |t|
    ensures At(input, p + k) == t[k] && t[k] != '\0'
  {
    assert input[p..p + |t|][k] == input[p + k];
  }

  lemma ClassifyDigit(l: Lexer)
    requires l.base in {8, 10, 16} && DigitOf(l.in_.ch, l.base)
    ensures Classify(l).Accept?
    ensures var r := Classify(l).l; r.base == l.base && !r.noDigits && r.text == l.text && r.in_ == l.in_
  {
  }

  lemma LexStep(input: string, l: Lexer, width: nat)
    requires width > 1 && Classify(l).Accept?
    ensures var r := Classify(l).l;
            var r := r.(text := r.text + [r.in_.ch]);
            Lex(input, l, width) ==
            if More(input, r.in_) then Lex(input, r.(in_ := Get(input, r.in_)), width - 1) else r
  {
    hide Classify;
  }

  lemma LexStops(input: string, l: Lexer, width: nat)
    requires width > 0 && l.in_.ch == ' '
    ensures Lex(input, l, width) == l.(in_ := l.in_.(ready := true))
  {
  }

  lemma LexLast(input: string, l: Lexer)
    requires Classify(l).Accept?
    ensures var r := Classify(l).l; Lex(input, l, 1) == r.(text := r.text + [r.in_.ch])
  {
    hide Classify;
  }

  /** r has taken the digits from t[k] on that the width allows; with room for more it has looked at what follows. */
  predicate Took(input: string, l: Lexer, width: nat, p: nat, t: string, k: nat, r: Lexer)
    requires k < |t|
  {
    r.base == l.base && !r.noDigits &&
    if width <= |t| - k then r.text == l.text + t[k..k + width]
    else r.text == l.text + t[k..] && r.in_ == AfterText(input, p + |t|, t[|t| - 1])
  }

  lemma TookMore(input: string, l: Lexer, m: Lexer, width: nat, p: nat, t: string, k: nat, r: Lexer)
    requires k + 1 < |t| && width > 1 && m.base == l.base && m.text == l.text + [t[k]]
    requires Took(input, m, width - 1, p, t, k + 1, r)
    ensures Took(input, l, width, p, t, k, r)
  {
    assert t[k..] == [t[k]] + t[k + 1..];
    if width <= |t| - k { assert t[k..k + width] == [t[k]] + t[k + 1..k + width]; }
  }

  lemma {:induction false} LexDigits(input: string, l: Lexer, width: nat, p: nat, t: string, k: nat)
    requires l.base in {8, 10, 16} && AllDigits(t, l.base) && HasAt(input, p, t) && Ends(input, p + |t|)
    requires k < |t| && l.in_ == In(p + k + 1, t[k], false) && width > 0
    ensures Took(input, l, width, p, t, k, Lex(input, l, width))
    decreases |t| - k
  {
    hide Classify, Lex, DigitOf, Took, HasAt, AfterText;
    assert DigitOf(t[k], l.base);
    ClassifyDigit(l);
    var r := Classify(l).l;
    if width == 1 || k + 1 == |t| {
      LexLastDigit(input, l, width, p, t, k);
    } else {
      var m := r.(text := r.text + [t[k]], in_ := In(p + k + 2, t[k + 1], false));
      LexStep(input, l, width);
      CharAt(input, p, t, k + 1);
      LexDigits(input, m, width - 1, p, t, k + 1);
      TookMore(input, l, m, width, p, t, k, Lex(input, l, width));
    }
  }

  lemma LexLastDigit(input: string, l: Lexer, width: nat, p: nat, t: string, k: nat)
    requires l.base in {8, 10, 16} && DigitOf(l.in_.ch, l.base) && Ends(input, p + |t|)
    requires k < |t| && l.in_ == In(p + k + 1, t[k], false) && width > 0 && (width == 1 || k + 1 == |t|)
    ensures Took(input, l, width, p, t, k, Lex(input, l, width))
  {
    hide Classify, Lex, DigitOf;
    ClassifyDigit(l);
    var r := Classify(l).l;
    assert t[k..k + 1] == [t[k]];
    if width == 1 {
      LexLast(input, l);
    } else {
      LexStep(input, l, width);
      LexStops(input, r.(text := r.text + [t[k]], in_ := In(p + k + 2, ' ', false)), width - 1);
    }
  }

  lemma LexSame(input: string, l: Lexer, m: Lexer, width: nat)
    requires Classify(l) == Classify(m)
    ensures width > 0 ==> Lex(input, l, width) == Lex(input, m, width)
  {
    hide Classify;
  }

  /** A base that is not given follows from the first digit. */
  lemma LexFirst(input: string, l: Lexer, width: nat)
    requires width > 0 && l.base == 0 && DigitOf(l.in_.ch, 10) && l.noZero
    ensures Lex(input, l, width) ==
            Lex(input, if l.in_.ch == '0' then l.(base := 8, prefixOk := true) else l.(base := 10), width)
  {
    LexSame(input, l, if l.in_.ch == '0' then l.(base := 8, prefixOk := true) else l.(base := 10), width);
  }

  // --- The ways to print a number ---

  /** %d; %u; %x and %X; %o; the last two with or without the prefix that # asks for. */
  datatype Style = Dec | Uns | Hex(alt: bool, upper: bool) | Oct(alt: bool)

  predicate InRange(st: Style, n: int) {
    if st.Dec? then -LONG_MAX - 1 <= n <= LONG_MAX else 0 <= n < WORD
  }

  predicate Alternate(st: Style) {
    (st.Hex? || st.Oct?) && st.alt
  }

  function HexMark(upper: bool): string {
    if upper then "0X" else "0x"
  }

  function NumberText(st: Style, n: int): string
    requires InRange(st, n)
  {
    match st
    case Dec => (if n < 0 then "-" else "") + Numeral(if n < 0 then -n else n, 10, false)
    case Uns => Numeral(n, 10, false)
    case Hex(alt, upper) => (if alt then HexMark(upper) else "") + Numeral(n, 16, upper)
    case Oct(alt) => (if alt && n > 0 then "0" else "") + Numeral(n, 8, false)
  }

  /** The conversions of _getf that take numbers in this style. */
  predicate Takes(st: Style, cf: char) {
    match st
    case Dec => cf in "diu"
    case Uns => cf in "diu"
    case Hex(alt, _) => cf in "xX" || (alt && cf == 'i')
    case Oct(alt) => cf == 'o' || (alt && cf == 'i')
  }

  function StyleBase(st: Style, n: int, cf: char): nat {
    if st.Hex? then 16 else if st.Oct? || (cf == 'i' && n == 0) then 8 else 10
  }

  /** What the scanner makes of a number: strtol goes no further than the largest signed one. */
  function ReadBack(n: int): int {
    if n > LONG_MAX then LONG_MAX else n
  }

  lemma NumeralClean(n: nat, base: nat, upper: bool)
    requires base == 8 || base == 10 || base == 16
    requires n < WORD
    ensures '\0' !in Numeral(n, base, upper) && ' ' !in Numeral(n, base, upper) && |Numeral(n, base, upper)| <= 11
  {
    NumeralDigits(n, base, upper);
    WordFits(n);
    NumeralLength(n, base, upper, 11);
    hide Numeral, AllDigits;
    var t := Numeral(n, base, upper);
    NoBlankDigits(t, base);
  }

  lemma NoBlankDigits(t: string, base: nat)
    requires AllDigits(t, base)
    ensures '\0' !in t && ' ' !in t
  {
  }

  lemma TextClean(st: Style, n: int)
    requires InRange(st, n)
    ensures '\0' !in NumberText(st, n) && ' ' !in NumberText(st, n) && 0 < |NumberText(st, n)| <= 13
  {
    hide Numeral;
    match st {
      case Dec => NumeralClean(if n < 0 then -n else n, 10, false);
      case Uns => NumeralClean(n, 10, false);
      case Hex(_, upper) => NumeralClean(n, 16, upper);
      case Oct(_) => NumeralClean(n, 8, false);
    }
  }

  predicate Lexed(st: Style, n: int, cf: char, input: string, p: nat, r: Lexer)
    requires InRange(st, n)
  {
    var t := NumberText(st, n);
    r.base == StyleBase(st, n, cf) && !r.noDigits && r.text == t && t != "" &&
    r.in_ == AfterText(input, p + |t|, t[|t| - 1])
  }

  function Start(cf: char, p: nat, ch: char): Lexer {
    Lexer(BaseOf(cf), true, true, cf == 'x' || cf == 'X', true, "", In(p + 1, ch, false))
  }

  lemma TakesEitherSign(l: Lexer)
    requires l.signOk && (l.in_.ch == '-' || l.in_.ch == '+')
    ensures Classify(l) == Accept(l.(signOk := false))
  {
  }

  lemma LexNegative(n: int, cf: char, input: string, p: nat)
    requires InRange(Dec, n) && Takes(Dec, cf) && n < 0
    requires HasAt(input, p, NumberText(Dec, n)) && Ends(input, p + |NumberText(Dec, n)|)
    ensures Lexed(Dec, n, cf, input, p, Lex(input, Start(cf, p, '-'), FIELD))
  {
    hide Lex, Numeral, NumberText, Classify, HasAt, Ends, AfterText;
    var t, digits := NumberText(Dec, n), Numeral(-n, 10, false);
    var l := Start(cf, p, '-');
    NegativeText(n);
    TakesEitherSign(l);
    LexStep(input, l, FIELD);
    CharAt(input, p, t, 1);
    HasTail(input, p, "-", digits);
    assert "" + ['-'] == "-";
    LexDecDigits(l.(signOk := false, text := "-", in_ := In(p + 2, digits[0], false)), 14, -n, input, p + 1);
  }

  lemma NegativeText(n: int)
    requires InRange(Dec, n) && n < 0
    ensures NumberText(Dec, n) == "-" + Numeral(-n, 10, false)
  {
    hide Numeral;
  }

  lemma LexDec(st: Style, n: int, cf: char, input: string, p: nat)
    requires (st.Dec? || st.Uns?) && InRange(st, n) && Takes(st, cf)
    requires HasAt(input, p, NumberText(st, n)) && Ends(input, p + |NumberText(st, n)|)
    ensures Lexed(st, n, cf, input, p, Lex(input, Start(cf, p, NumberText(st, n)[0]), FIELD))
  {
    hide Lex, Numeral, NumberText, HasAt, Ends, AfterText;
    var t := NumberText(st, n);
    if n < 0 {
      assert st == Dec;
      NegativeText(n);
      LexNegative(n, cf, input, p);
    } else {
      PlainText(st, n);
      assert "" + t == t;
      LexDecDigits(Start(cf, p, t[0]), FIELD, n, input, p);
    }
  }

  lemma PlainText(st: Style, n: nat)
    requires (st.Dec? || st.Uns?) && InRange(st, n)
    ensures NumberText(st, n) == Numeral(n, 10, false)
  {
    hide Numeral;
    assert "" + Numeral(n, 10, false) == Numeral(n, 10, false);
  }

  lemma HasTail(input: string, p: nat, a: string, b: string)
    requires HasAt(input, p, a + b)
    ensures HasAt(input, p + |a|, b)
  {
    var t := a + b;
    assert input[p + |a|..p + |t|] == t[|a|..];
    assert t[|a|..] == b;
    forall i | 0 <= i < |b| ensures b[i] != '\0' { assert b[i] == t[|a| + i]; }
  }

  lemma LexDecDigits(l: Lexer, width: nat, m: nat, input: string, q: nat)
    requires m < WORD && width > 12
    requires (l.base == 0 && l.noZero) || l.base == 10
    requires var digits := Numeral(m, 10, false);
             HasAt(input, q, digits) && Ends(input, q + |digits|) && l.in_ == In(q + 1, digits[0], false)
    ensures var digits := Numeral(m, 10, false);
            var r := Lex(input, l, width);
            r.base == (if l.base == 0 && m == 0 then 8 else 10) && !r.noDigits && r.text == l.text + digits &&
            r.in_ == AfterText(input, q + |digits|, digits[|digits| - 1])
  {
    hide Lex, Numeral, DigitOf;
    var digits := Numeral(m, 10, false);
    NumeralDigits(m, 10, false);
    NumeralClean(m, 10, false);
    assert digits[0..] == digits;
    if l.base == 10 {
      LexDigits(input, l, width, q, digits, 0);
    } else {
      LexFirst(input, l, width);
      if m == 0 {
        ZeroIsOctal();
        LexDigits(input, l.(base := 8, prefixOk := true), width, q, digits, 0);
      } else {
        LexDigits(input, l.(base := 10), width, q, digits, 0);
      }
    }
  }

  lemma ZeroIsOctal()
    ensures AllDigits("0", 8)
  {
  }

  lemma LexHex(n: int, alt: bool, upper: bool, cf: char, input: string, p: nat)
    requires InRange(Hex(alt, upper), n) && Takes(Hex(alt, upper), cf)
    requires HasAt(input, p, NumberText(Hex(alt, upper), n)) && Ends(input, p + |NumberText(Hex(alt, upper), n)|)
    ensures Lexed(Hex(alt, upper), n, cf, input, p, Lex(input, Start(cf, p, NumberText(Hex(alt, upper), n)[0]), FIELD))
  {
    hide Lex, Numeral, NumberText, HasAt, Ends, AfterText, AllDigits;
    var digits := Numeral(n, 16, upper);
    NumeralDigits(n, 16, upper);
    NumeralClean(n, 16, upper);
    HexText(n, alt, upper);
    if alt {
      LexMarked(cf, input, p, HexMark(upper), digits);
    } else {
      assert digits[0..] == digits && "" + digits == digits;
      LexDigits(input, Start(cf, p, digits[0]), FIELD, p, digits, 0);
    }
  }

  lemma HexText(n: nat, alt: bool, upper: bool)
    requires n < WORD
    ensures NumberText(Hex(alt, upper), n) ==
            if alt then HexMark(upper) + Numeral(n, 16, upper) else Numeral(n, 16, upper)
    ensures HexMark(upper)[0] == '0'
  {
    hide Numeral;
    EmptyFront(Numeral(n, 16, upper));
  }

  lemma LexMarked(cf: char, input: string, p: nat, prefix: string, digits: string)
    requires cf in "ixX" && (prefix == "0x" || prefix == "0X") && AllDigits(digits, 16) && 0 < |digits| <= 11
    requires HasAt(input, p, prefix + digits) && Ends(input, p + 2 + |digits|)
    ensures var r := Lex(input, Start(cf, p, '0'), FIELD);
            r.base == 16 && !r.noDigits && r.text == prefix + digits &&
            r.in_ == AfterText(input, p + 2 + |digits|, digits[|digits| - 1])
  {
    hide Lex, HasAt, Ends, AfterText, AllDigits;
    HasTail(input, p, prefix, digits);
    CharAt(input, p, prefix + digits, 1);
    CharAt(input, p + 2, digits, 0);
    LexPrefix(cf, input, p, prefix, digits[0]);
    LexDigits(input, AfterPrefix(p, prefix, digits[0]), 13, p + 2, digits, 0);
    assert digits[0..] == digits;
  }

  function AfterPrefix(p: nat, prefix: string, first: char): Lexer {
    Lexer(16, false, false, false, false, prefix, In(p + 3, first, false))
  }

  /** The two characters that make a number hexadecimal. */
  lemma LexPrefix(cf: char, input: string, p: nat, prefix: string, first: char)
    requires cf in "ixX" && (prefix == "0x" || prefix == "0X") && first != '\0'
    requires At(input, p + 1) == prefix[1] && At(input, p + 2) == first
    ensures Lex(input, Start(cf, p, '0'), FIELD) == Lex(input, AfterPrefix(p, prefix, first), 13)
  {
    hide Lex, Classify;
    var l := Start(cf, p, '0');
    TakesZero(l);
    LexStep(input, l, FIELD);
    assert l.text + ['0'] == "0" && "0" + [prefix[1]] == prefix;
    var l1 := Lexer(if l.base == 0 then 8 else 16, false, false, true, false, "0", In(p + 2, prefix[1], false));
    TakesX(l1);
    LexStep(input, l1, 14);
  }

  lemma TakesZero(l: Lexer)
    requires l.noZero && l.in_.ch == '0'
    ensures Classify(l) == Accept(l.(base := if l.base == 0 then 8 else l.base, prefixOk := l.base == 0 || l.prefixOk,
                                     signOk := false, noZero := false, noDigits := false))
  {
  }

  lemma TakesX(l: Lexer)
    requires l.prefixOk && (l.in_.ch == 'x' || l.in_.ch == 'X')
    ensures Classify(l) == Accept(l.(base := 16, prefixOk := false))
  {
  }

  lemma LexOct(n: int, alt: bool, cf: char, input: string, p: nat)
    requires InRange(Oct(alt), n) && Takes(Oct(alt), cf)
    requires HasAt(input, p, NumberText(Oct(alt), n)) && Ends(input, p + |NumberText(Oct(alt), n)|)
    ensures Lexed(Oct(alt), n, cf, input, p, Lex(input, Start(cf, p, NumberText(Oct(alt), n)[0]), FIELD))
  {
    hide Lex, NumberText, AllDigits, DigitOf, Classify;
    var t := NumberText(Oct(alt), n);
    OctText(n, alt);
    assert "" + t == t;
    assert t[0..] == t;
    var l := Start(cf, p, t[0]);
    if cf == 'i' {
      ZeroStarts(l);
      LexFirst(input, l, FIELD);
      LexDigits(input, l.(base := 8, prefixOk := true), FIELD, p, t, 0);
    } else {
      LexDigits(input, l, FIELD, p, t, 0);
    }
  }

  lemma OctText(n: nat, alt: bool)
    requires InRange(Oct(alt), n)
    ensures var t := NumberText(Oct(alt), n); AllDigits(t, 8) && 0 < |t| <= 12 && (alt ==> t[0] == '0')
  {
    hide Numeral, DigitOf;
    NumeralDigits(n, 8, false);
    NumeralClean(n, 8, false);
    ZeroIsOctal();
  }

  lemma ZeroStarts(l: Lexer)
    requires l.in_.ch == '0'
    ensures DigitOf(l.in_.ch, 10)
  {
  }

  // --- strtol on what was printed ---

  lemma StrtolReads(st: Style, n: int, cf: char)
    requires InRange(st, n) && Takes(st, cf)
    ensures Strtol(NumberText(st, n), StyleBase(st, n, cf)) == ReadBack(n)
  {
    hide Numeral, NumberText, Strtol;
    match st {
      case Dec => StrtolDec(st, n, StyleBase(st, n, cf));
      case Uns => StrtolDec(st, n, StyleBase(st, n, cf));
      case Hex(alt, upper) => StrtolHex(n, alt, upper);
      case Oct(alt) => StrtolOct(n, alt);
    }
  }

  lemma StrtolDec(st: Style, n: int, base: nat)
    requires (st.Dec? || st.Uns?) && InRange(st, n) && (base == 10 || (base == 8 && n == 0))
    ensures Strtol(NumberText(st, n), base) == ReadBack(n)
  {
    hide Numeral, DigitOf, DigitsValue, DigitValue;
    var t := NumberText(st, n);
    var m := if n < 0 then -n else n;
    NumeralValue(m, 10, false);
    NumeralDigits(m, 10, false);
    FirstIsDigit(Numeral(m, 10, false), 10);
    if n < 0 {
      assert t[1..] == Numeral(m, 10, false);
      DigitsFrom(t, 1, 10, 0);
    } else {
      assert t == Numeral(m, 10, false);
      ZeroIs(8);
    }
  }

  lemma StrtolHex(n: nat, alt: bool, upper: bool)
    requires n < WORD
    ensures Strtol(NumberText(Hex(alt, upper), n), 16) == ReadBack(n)
  {
    hide Numeral, DigitOf, DigitsValue, DigitValue;
    var t := NumberText(Hex(alt, upper), n);
    NumeralValue(n, 16, upper);
    NumeralDigits(n, 16, upper);
    FirstIsDigit(Numeral(n, 16, upper), 16);
    NoMark(Numeral(n, 16, upper));
    if alt {
      assert t[2..] == Numeral(n, 16, upper);
      DigitsFrom(t, 2, 16, 0);
    } else {
      assert t == Numeral(n, 16, upper);
    }
  }

  lemma NoMark(t: string)
    requires AllDigits(t, 16)
    ensures !HexPrefix(t, 0)
  {
  }

  lemma StrtolOct(n: nat, alt: bool)
    requires n < WORD
    ensures Strtol(NumberText(Oct(alt), n), 8) == ReadBack(n)
  {
    hide Numeral, DigitOf, DigitsValue, DigitValue;
    var t := NumberText(Oct(alt), n);
    NumeralValue(n, 8, false);
    NumeralDigits(n, 8, false);
    FirstIsDigit(Numeral(n, 8, false), 8);
    if alt && n > 0 {
      ZeroIs(8);
      ZeroIsOctal();
      DigitsAppend("0", Numeral(n, 8, false), 8, 0);
      assert t == "0" + Numeral(n, 8, false) && t[0] == '0';
    } else {
      assert t == Numeral(n, 8, false);
    }
  }

  lemma FirstIsDigit(t: string, base: nat)
    requires AllDigits(t, base) && t != ""
    ensures t[0] != '-' && t[0] != '+' && DigitValue(t[0]) < base
  {
  }

  lemma ZeroIs(base: nat)
    requires base > 0
    ensures DigitsValue("0", 0, base, 0) == 0
  {
  }

  // --- One number ---

  lemma TextLexes(st: Style, n: int, cf: char, input: string, p: nat)
    requires InRange(st, n) && Takes(st, cf)
    requires HasAt(input, p, NumberText(st, n)) && Ends(input, p + |NumberText(st, n)|)
    ensures NumberText(st, n) != "" && Lexed(st, n, cf, input, p, Lex(input, Start(cf, p, NumberText(st, n)[0]), FIELD))
  {
    hide Lex, Lexed, NumberText;
    TextClean(st, n);
    match st {
      case Dec => LexDec(st, n, cf, input, p);
      case Uns => LexDec(st, n, cf, input, p);
      case Hex(alt, upper) => LexHex(n, alt, upper, cf, input, p);
      case Oct(alt) => LexOct(n, alt, cf, input, p);
    }
  }

  lemma KeepsWord(n: int)
    requires -LONG_MAX - 1 <= n <= LONG_MAX
    ensures Truncated(n, 32) == n
  {
  }

  /** A printed number is converted and stored, and the input stands right behind it. */
  lemma NumberScans(st: Style, n: int, cf: char, input: string, p: nat, at: nat, sc: Score)
    requires InRange(st, n) && Takes(st, cf)
    requires HasAt(input, p, NumberText(st, n)) && Ends(input, p + |NumberText(st, n)|)
    ensures NumberText(st, n) != ""
    ensures var t := NumberText(st, n);
            ScanNumber(input, cf, Conv(0, false, false, 0, at), In(p + 1, t[0], false), sc) ==
            Go(AfterText(input, p + |t|, t[|t| - 1]), Assigned(sc.(items := sc.items + [Number(ReadBack(n), 32)])))
  {
    hide Lex, NumberText, Strtol, Truncated;
    TextLexes(st, n, cf, input, p);
    StrtolReads(st, n, cf);
    KeepsWord(ReadBack(n));
  }

  /** A conversion that meets the number, or has its first character ready. */
  lemma NumberConverts(st: Style, n: int, cf: char, input: string, p: nat, s: In, at: nat, sc: Score)
    requires InRange(st, n) && Takes(st, cf)
    requires HasAt(input, p, NumberText(st, n)) && Ends(input, p + |NumberText(st, n)|)
    requires if s.ready then NumberText(st, n) != "" && s == In(p + 1, NumberText(st, n)[0], true) else s.pos == p
    ensures var t := NumberText(st, n);
            t != "" &&
            Conversion(input, cf, Conv(0, false, false, 0, at), s, sc) ==
            Go(AfterText(input, p + |t|, t[|t| - 1]), Assigned(sc.(items := sc.items + [Number(ReadBack(n), 32)])))
  {
    hide NumberText, ScanNumber;
    var t := NumberText(st, n);
    NumberScans(st, n, cf, input, p, at, sc);
    CharAt(input, p, t, 0);
    StartsNumber(st, n);
    assert FindText(input, In(p + 1, t[0], false)) == Found(In(p + 1, t[0], false));
  }

  lemma StartsNumber(st: Style, n: int)
    requires InRange(st, n)
    ensures NumberText(st, n) != "" && !IsSpace(NumberText(st, n)[0])
  {
    hide Numeral;
    match st {
      case Dec =>
        NumeralDigits(if n < 0 then -n else n, 10, false);
        DigitIsNoSpace(Numeral(if n < 0 then -n else n, 10, false)[0], 10);
      case Uns =>
        NumeralDigits(n, 10, false);
        DigitIsNoSpace(Numeral(n, 10, false)[0], 10);
      case Hex(_, upper) =>
        NumeralDigits(n, 16, upper);
        DigitIsNoSpace(Numeral(n, 16, upper)[0], 16);
      case Oct(_) =>
        NumeralDigits(n, 8, false);
        DigitIsNoSpace(Numeral(n, 8, false)[0], 8);
    }
  }

  lemma DigitIsNoSpace(ch: char, base: nat)
    requires DigitOf(ch, base)
    ensures !IsSpace(ch)
  {
  }

  // --- Lists ---

  /** "%<conv> %<conv> ... %<conv>" */
  function FormatTail(conv: string, k: nat): string {
    if k == 0 then "" else " %" + conv + FormatTail(conv, k - 1)
  }

  function ListFormat(conv: string, k: nat): string
    requires k > 0
  {
    "%" + conv + FormatTail(conv, k - 1)
  }

  predicate AllInRange(st: Style, ns: seq<int>) {
    forall i :: 0 <= i < |ns| ==> InRange(st, ns[i])
  }

  function TextTail(st: Style, ns: seq<int>): string
    requires AllInRange(st, ns)
  {
    if ns == [] then "" else " " + NumberText(st, ns[0]) + TextTail(st, ns[1..])
  }

  function ListText(st: Style, ns: seq<int>): string
    requires AllInRange(st, ns) && ns != []
  {
    NumberText(st, ns[0]) + TextTail(st, ns[1..])
  }

  /** What is stored for a list. */
  function Numbers(ns: seq<int>): seq<Item> {
    seq(|ns|, i requires 0 <= i < |ns| => Number(ReadBack(ns[i]), 32))
  }

  /** The conversion character ends the conversion. */
  lemma ScanConversion(fmt: string, j: nat, cf: char, rest: string, input: string, s: In, sc: Score)
    requires j <= |fmt| && fmt[j..] == "%" + [cf] + rest && cf in "diouxX"
    ensures j < |fmt|
    ensures Directive(input, fmt, j, s, sc) == (Conversion(input, cf, Conv(0, false, false, 0, j + 1), s, sc), j + 2)
    ensures fmt[j + 2..] == rest
  {
    hide Conversion;
    assert fmt[j] == fmt[j..][0] == '%' && fmt[j + 1] == fmt[j..][1] == cf;
    assert fmt[j + 2..] == fmt[j..][2..];
    assert Flags(fmt, Conv(0, false, false, 0, j + 1)) == Conv(0, false, false, 0, j + 1);
  }

  lemma ScanBlank(fmt: string, j: nat, rest: string, input: string, s: In, sc: Score)
    requires j <= |fmt| && fmt[j..] == " " + rest
    ensures j < |fmt| && Directive(input, fmt, j, s, sc) == (Go(SkipSpace(input, s), sc), j + 1) && fmt[j + 1..] == rest
  {
    assert fmt[j] == fmt[j..][0] == ' ';
    assert fmt[j + 1..] == fmt[j..][1..];
  }

  /** Behind a number: the space that was looked at is gone, and the next number has begun. */
  lemma BlankFindsNext(input: string, e: nat, last: char, t: string)
    requires At(input, e) == ' ' && HasAt(input, e + 1, t) && t != "" && !IsSpace(t[0])
    ensures SkipSpace(input, AfterText(input, e, last)) == In(e + 2, t[0], true)
  {
    CharAt(input, e + 1, t, 0);
  }

  /** One more number of the list. */
  lemma TailStep(st: Style, ns: seq<int>, cf: char, input: string, fmt: string, j: nat, e: nat, last: char, sc: Score)
    requires AllInRange(st, ns) && ns != [] && Takes(st, cf)
    requires e <= |input| && input[e..] == TextTail(st, ns) && j <= |fmt| && fmt[j..] == FormatTail([cf], |ns|)
    ensures j + 3 <= |fmt| && fmt[j + 3..] == FormatTail([cf], |ns| - 1)
    ensures var t := NumberText(st, ns[0]);
            var e' := e + 1 + |t|;
            t != "" && e' <= |input| && input[e'..] == TextTail(st, ns[1..]) &&
            Scan(input, fmt, j, AfterText(input, e, last), sc) ==
            Scan(input, fmt, j + 3, AfterText(input, e', t[|t| - 1]),
                 Assigned(sc.(items := sc.items + [Number(ReadBack(ns[0]), 32)])))
  {
    hide NumberText, Conversion, Directive, SkipSpace, AfterText, Assigned, TextTail;
    var t := NumberText(st, ns[0]);
    StartsNumber(st, ns[0]);
    TailParts(st, ns, input, e);
    BlankFindsNext(input, e, last, t);
    assert FormatTail([cf], |ns|) == " " + ("%" + [cf] + FormatTail([cf], |ns| - 1));
    ScanBlank(fmt, j, "%" + [cf] + FormatTail([cf], |ns| - 1), input, AfterText(input, e, last), sc);
    var s := In(e + 2, t[0], true);
    ScanConversion(fmt, j + 1, cf, FormatTail([cf], |ns| - 1), input, s, sc);
    NumberConverts(st, ns[0], cf, input, e + 1, s, j + 2, sc);
  }

  lemma {:induction false} TailScans(st: Style, ns: seq<int>, cf: char, input: string, fmt: string, j: nat, e: nat,
                                     last: char, sc: Score)
    requires AllInRange(st, ns) && Takes(st, cf)
    requires e <= |input| && input[e..] == TextTail(st, ns) && j <= |fmt| && fmt[j..] == FormatTail([cf], |ns|)
    requires sc.acnt < 256
    ensures Scan(input, fmt, j, AfterText(input, e, last), sc) == ((sc.acnt + |ns|) % 256, sc.items + Numbers(ns))
    decreases |ns|
  {
    hide NumberText, AfterText, Scan, TextTail;
    if ns == [] {
      assert sc.items + Numbers(ns) == sc.items;
      ScanEnds(input, fmt, j, AfterText(input, e, last), sc);
    } else {
      var t := NumberText(st, ns[0]);
      TailStep(st, ns, cf, input, fmt, j, e, last, sc);
      TailScans(st, ns[1..], cf, input, fmt, j + 3, e + 1 + |t|, t[|t| - 1],
                Assigned(sc.(items := sc.items + [Number(ReadBack(ns[0]), 32)])));
      CountsUp(sc.acnt, |ns|);
      assert sc.items + [Number(ReadBack(ns[0]), 32)] + Numbers(ns[1..]) == sc.items + Numbers(ns);
    }
  }

  lemma ScanEnds(input: string, fmt: string, j: nat, s: In, sc: Score)
    requires j >= |fmt|
    ensures Scan(input, fmt, j, s, sc) == (sc.acnt, sc.items)
  {
  }

  lemma CountsUp(acnt: nat, n: nat)
    requires n > 0
    ensures ((acnt + 1) % 256 + (n - 1)) % 256 == (acnt + n) % 256
  {
  }

  lemma TailParts(st: Style, ns: seq<int>, input: string, e: nat)
    requires AllInRange(st, ns) && ns != [] && e <= |input| && input[e..] == TextTail(st, ns)
    ensures var t := NumberText(st, ns[0]);
            At(input, e) == ' ' && HasAt(input, e + 1, t) && e + 1 + |t| <= |input| &&
            input[e + 1 + |t|..] == TextTail(st, ns[1..]) && Ends(input, e + 1 + |t|)
  {
    hide NumberText;
    var t, rest := NumberText(st, ns[0]), TextTail(st, ns[1..]);
    TextClean(st, ns[0]);
    assert input[e..] == " " + t + rest;
    assert input[e] == input[e..][0];
    assert input[e + 1..e + 1 + |t|] == input[e..][1..1 + |t|] == t;
    assert input[e + 1 + |t|..] == input[e..][1 + |t|..] == rest;
    TailEnds(st, ns[1..], input, e + 1 + |t|);
  }

  lemma TailEnds(st: Style, ns: seq<int>, input: string, e: nat)
    requires AllInRange(st, ns) && e <= |input| && input[e..] == TextTail(st, ns)
    ensures Ends(input, e)
  {
    hide NumberText;
    if ns != [] { assert input[e] == input[e..][0] == ' '; }
  }

  /** sscanf reads any list of printed numbers back; the count it returns is eight bits wide. */
  lemma ListScans(st: Style, ns: seq<int>, cf: char)
    requires AllInRange(st, ns) && ns != [] && Takes(st, cf)
    ensures Sscanf(ListText(st, ns), ListFormat([cf], |ns|)) == (|ns| % 256, Numbers(ns))
  {
    hide NumberText, Conversion, Directive, AfterText;
    var input, fmt := ListText(st, ns), ListFormat([cf], |ns|);
    var t := NumberText(st, ns[0]);
    TextClean(st, ns[0]);
    assert input[0..|t|] == t && input[|t|..] == TextTail(st, ns[1..]);
    assert fmt[0..] == "%" + [cf] + FormatTail([cf], |ns| - 1);
    TailEnds(st, ns[1..], input, |t|);
    ScanConversion(fmt, 0, cf, FormatTail([cf], |ns| - 1), input, In(0, '\0', false), Score(0, 0, []));
    NumberConverts(st, ns[0], cf, input, 0, In(0, '\0', false), 1, Score(0, 0, []));
    TailScans(st, ns[1..], cf, input, fmt, 2, |t|, t[|t| - 1], Score(1, 1, [Number(ReadBack(ns[0]), 32)]));
    assert [Number(ReadBack(ns[0]), 32)] + Numbers(ns[1..]) == Numbers(ns);
    assert [] + [Number(ReadBack(ns[0]), 32)] == [Number(ReadBack(ns[0]), 32)];
  }

  // --- Printing the list ---

  /** The conversion that prints a style. */
  function PrintConv(st: Style): string {
    match st
    case Dec => "d"
    case Uns => "u"
    case Hex(alt, upper) => (if alt then "#" else "") + if upper then "X" else "x"
    case Oct(alt) => if alt then "#o" else "o"
  }

  function Args(ns: seq<int>): seq<Arg> {
    seq(|ns|, i requires 0 <= i < |ns| => Arg(ns[i] % WORD, Null))
  }

  lemma SignedBack(n: int)
    requires -LONG_MAX - 1 <= n < WORD
    ensures n % WORD % WORD == n % WORD && (n >= 0 ==> n % WORD == n) && (n <= LONG_MAX ==> Signed(n % WORD) == n)
  {
  }

  /** The modifiers of these conversions. */
  lemma PrintMods(st: Style, fmt: string, i: nat, rest: string, args: seq<Arg>)
    requires i <= |fmt| && fmt[i..] == PrintConv(st) + rest
    ensures var s := Modifiers(fmt, i, args, PLAIN);
            s == Spec(PLAIN.(alt := Alternate(st)), i + |PrintConv(st)| - 1, args) && s.at < |fmt| &&
            At(fmt, s.at) == PrintConv(st)[|PrintConv(st)| - 1] && fmt[s.at + 1..] == rest
  {
    hide Modifier, PrintConv;
    var c := PrintConv(st);
    ConvParts(st);
    assert fmt[i] == fmt[i..][0] == c[0];
    assert fmt[i + |c|..] == fmt[i..][|c|..] == rest;
    if Alternate(st) {
      assert fmt[i + 1] == fmt[i..][1] == c[1];
      ConvCharacter(fmt, i, args, PLAIN);
      ConvCharacter(fmt, i + 1, args, PLAIN.(alt := true));
    } else {
      ConvCharacter(fmt, i, args, PLAIN);
    }
  }

  lemma ConvParts(st: Style)
    ensures var c := PrintConv(st);
            if Alternate(st) then |c| == 2 && c[0] == '#' && c[1] in "xXo" else |c| == 1 && c[0] in "duxXo"
  {
  }

  lemma ConvCharacter(fmt: string, i: nat, args: seq<Arg>, m: Mods)
    requires i < |fmt|
    ensures At(fmt, i) == '#' ==> Modifiers(fmt, i, args, m) == Modifiers(fmt, i + 1, args, m.(alt := true))
    ensures At(fmt, i) in "duxXo" ==> Modifiers(fmt, i, args, m) == Spec(m, i, args)
  {
    hide Modifiers;
    ModifiersStep(fmt, i, args, m);
  }

  /** Without a width or a precision the field is the number. */
  lemma NumberPrints(st: Style, n: int, rest: seq<Arg>)
    requires InRange(st, n)
    ensures var m := PLAIN.(alt := Alternate(st));
            var p := Printf.Convert(PrintConv(st)[|PrintConv(st)| - 1], m, [Arg(n % WORD, Null)] + rest);
            Field(p, m) == NumberText(st, n) && p.args == rest
  {
    hide Field, Printf.Convert, NumberText;
    var args := [Arg(n % WORD, Null)] + rest;
    var m := PLAIN.(alt := Alternate(st));
    var p := Printf.Convert(PrintConv(st)[|PrintConv(st)| - 1], m, args);
    FirstArg(n, rest);
    NumberPiece(st, n, m, args);
    PlainField(p, m);
  }

  lemma FirstArg(n: int, rest: seq<Arg>)
    requires -LONG_MAX - 1 <= n < WORD
    ensures var args := [Arg(n % WORD, Null)] + rest;
            Rest(args) == rest && (n <= LONG_MAX ==> Signed(First(args).word) == n) &&
            (n >= 0 ==> First(args).word == n)
  {
    SignedBack(n);
  }

  predicate Pieces(p: Piece, text: string, rest: seq<Arg>) {
    p.dprec == -1 && !p.zero && p.args == rest && SignText(p.sign) + p.text == text
  }

  lemma NumberPiece(st: Style, n: int, m: Mods, args: seq<Arg>)
    requires InRange(st, n) && m == PLAIN.(alt := Alternate(st))
    requires if st.Dec? then Signed(First(args).word) == n else First(args).word == n
    ensures Pieces(Printf.Convert(PrintConv(st)[|PrintConv(st)| - 1], m, args), NumberText(st, n), Rest(args))
  {
    hide Numeral, First, Rest, Signed, Pieces, Printf.Convert, NumberText;
    match st {
      case Dec => DecPiece(n, args);
      case Uns => UnsPiece(n, args);
      case Hex(alt, upper) => HexPiece(n, alt, upper, args);
      case Oct(alt) => OctPiece(n, alt, args);
    }
  }

  lemma DecPiece(n: int, args: seq<Arg>)
    requires InRange(Dec, n) && Signed(First(args).word) == n
    ensures Pieces(Printf.Convert('d', PLAIN, args), NumberText(Dec, n), Rest(args))
  {
    hide Numeral, First, Rest, Signed;
  }

  lemma UnsPiece(n: nat, args: seq<Arg>)
    requires n < WORD && First(args).word == n
    ensures Pieces(Printf.Convert('u', PLAIN, args), NumberText(Uns, n), Rest(args))
  {
    hide Numeral, First, Rest, Signed;
    EmptyFront(Numeral(n, 10, false));
  }

  lemma HexPiece(n: nat, alt: bool, upper: bool, args: seq<Arg>)
    requires n < WORD && First(args).word == n
    ensures Pieces(Printf.Convert(if upper then 'X' else 'x', PLAIN.(alt := alt), args),
                   NumberText(Hex(alt, upper), n), Rest(args))
  {
    hide Numeral, First, Rest, Signed;
    EmptyFront(Numeral(n, 16, upper));
    EmptyFront(HexMark(upper) + Numeral(n, 16, upper));
    assert ['0', if upper then 'X' else 'x'] == HexMark(upper);
  }

  lemma OctPiece(n: nat, alt: bool, args: seq<Arg>)
    requires n < WORD && First(args).word == n
    ensures Pieces(Printf.Convert('o', PLAIN.(alt := alt), args), NumberText(Oct(alt), n), Rest(args))
  {
    hide Numeral, First, Rest, Signed, DigitOf, AllDigits;
    NumeralDigits(n, 8, false);
    EmptyFront(Numeral(n, 8, false));
    EmptyFront("0" + Numeral(n, 8, false));
  }

  lemma EmptyFront(t: string)
    ensures "" + t == t
  {
  }

  lemma PlainField(p: Piece, m: Mods)
    requires m.width == 0 && !m.left && p.dprec == -1 && !p.zero
    ensures Field(p, m) == SignText(p.sign) + p.text
  {
    hide SignText;
  }

  /** One conversion after some literal text. */
  lemma ConversionPrints(st: Style, n: int, fmt: string, i: nat, lit: string, tail: string, rest: seq<Arg>)
    requires InRange(st, n) && i <= |fmt| && fmt[i..] == lit + "%" + PrintConv(st) + tail && (lit == "" || lit == " ")
    ensures var j := i + |lit| + 1 + |PrintConv(st)|;
            j <= |fmt| && fmt[j..] == tail &&
            Formatted(fmt, i, [Arg(n % WORD, Null)] + rest) == lit + NumberText(st, n) + Formatted(fmt, j, rest)
  {
    hide Numeral, NumberText, Modifiers, Printf.Convert, Field, Formatted, LiteralEnd, PrintConv;
    var e := i + |lit|;
    var args := [Arg(n % WORD, Null)] + rest;
    ConvIsClean(st);
    assert lit + "%" + PrintConv(st) + tail == lit + "%" + (PrintConv(st) + tail);
    LiteralBefore(fmt, i, lit, PrintConv(st) + tail);
    PrintMods(st, fmt, e + 1, tail, args);
    NumberPrints(st, n, rest);
    FormattedStep(fmt, i, args);
  }

  lemma ConvIsClean(st: Style)
    ensures PrintConv(st) != "" && PrintConv(st)[|PrintConv(st)| - 1] != '\0'
  {
  }

  lemma LiteralBefore(fmt: string, i: nat, lit: string, rest: string)
    requires i <= |fmt| && fmt[i..] == lit + "%" + rest && (lit == "" || lit == " ")
    ensures var e := i + |lit|;
            e < |fmt| && At(fmt, e) == '%' && LiteralEnd(fmt, i) == e && fmt[i..e] == lit && fmt[e + 1..] == rest
  {
    var e := i + |lit|;
    assert fmt[e] == fmt[i..][|lit|] == '%';
    assert fmt[e + 1..] == fmt[i..][|lit| + 1..];
    if lit == " " {
      assert fmt[i] == fmt[i..][0] == ' ';
      assert LiteralEnd(fmt, e) == e;
      assert fmt[i..e] == [fmt[i]];
    }
  }

  lemma {:induction false} TailPrints(st: Style, ns: seq<int>, fmt: string, i: nat)
    requires AllInRange(st, ns) && i <= |fmt| && fmt[i..] == FormatTail(PrintConv(st), |ns|)
    ensures Formatted(fmt, i, Args(ns)) == TextTail(st, ns)
    decreases |ns|
  {
    hide NumberText, PrintConv, Formatted, AllInRange;
    if ns == [] {
      FormatEnds(fmt, i, Args(ns));
    } else {
      var conv, tail := PrintConv(st), FormatTail(PrintConv(st), |ns| - 1);
      assert FormatTail(conv, |ns|) == " " + "%" + conv + tail;
      assert Args(ns) == [Arg(ns[0] % WORD, Null)] + Args(ns[1..]);
      InRangeParts(st, ns);
      ConversionPrints(st, ns[0], fmt, i, " ", tail, Args(ns[1..]));
      TailPrints(st, ns[1..], fmt, i + 2 + |conv|);
    }
  }

  lemma InRangeParts(st: Style, ns: seq<int>)
    requires AllInRange(st, ns) && ns != []
    ensures InRange(st, ns[0]) && AllInRange(st, ns[1..])
  {
  }

  lemma FormatEnds(fmt: string, i: nat, args: seq<Arg>)
    requires i == |fmt|
    ensures Formatted(fmt, i, args) == ""
  {
  }

  lemma ListPrints(st: Style, ns: seq<int>)
    requires AllInRange(st, ns) && ns != []
    ensures Formatted(ListFormat(PrintConv(st), |ns|), 0, Args(ns)) == ListText(st, ns)
  {
    hide NumberText, PrintConv, Formatted, AllInRange;
    InRangeParts(st, ns);
    var conv, tail := PrintConv(st), FormatTail(PrintConv(st), |ns| - 1);
    var fmt := ListFormat(conv, |ns|);
    assert fmt[0..] == "" + "%" + conv + tail;
    assert Args(ns) == [Arg(ns[0] % WORD, Null)] + Args(ns[1..]);
    ConversionPrints(st, ns[0], fmt, 0, "", tail, Args(ns[1..]));
    TailPrints(st, ns[1..], fmt, 1 + |conv|);
    assert "" + NumberText(st, ns[0]) == NumberText(st, ns[0]);
  }

  /**
   Printing then scanning gives back any list of numbers joined by spaces, in every style, except that what is above
   the largest signed number comes back as that; the number of fields comes back modulo 256.
   */
  lemma PrintThenScan(st: Style, ns: seq<int>, cf: char)
    requires AllInRange(st, ns) && ns != [] && Takes(st, cf)
    ensures Sscanf(Formatted(ListFormat(PrintConv(st), |ns|), 0, Args(ns)), ListFormat([cf], |ns|)) ==
            (|ns| % 256, Numbers(ns))
  {
    hide ListText, ListFormat, Formatted;
    ListPrints(st, ns);
    ListScans(st, ns, cf);
  }

  /** The words in memory are those that were printed. */
  predicate SameWords(ns: seq<int>, items: seq<Item>) {
    |items| == |ns| &&
    forall i :: 0 <= i < |ns| ==> items[i].Number? && items[i].bits == 32 && items[i].value % WORD == ns[i] % WORD
  }

  /** Every word comes back if and only if none of them is 2^31 or above, which a %d cannot print. */
  lemma RoundTripIff(st: Style, ns: seq<int>, cf: char)
    requires AllInRange(st, ns) && ns != [] && Takes(st, cf)
    ensures SameWords(ns, Sscanf(Formatted(ListFormat(PrintConv(st), |ns|), 0, Args(ns)),
                                 ListFormat([cf], |ns|)).1) <==>
            forall i :: 0 <= i < |ns| ==> ns[i] <= LONG_MAX
  {
    hide ListFormat, Formatted, Sscanf, ReadBack;
    PrintThenScan(st, ns, cf);
    forall i | 0 <= i < |ns| ensures ReadBack(ns[i]) % WORD == ns[i] % WORD <==> ns[i] <= LONG_MAX {
      assert InRange(st, ns[i]);
      ReadBackSame(ns[i]);
    }
    if SameWords(ns, Numbers(ns)) {
      forall i | 0 <= i < |ns| ensures ns[i] <= LONG_MAX {
        assert Numbers(ns)[i] == Number(ReadBack(ns[i]), 32);
      }
    }
  }

  lemma ReadBackSame(n: int)
    requires -LONG_MAX - 1 <= n < WORD
    ensures ReadBack(n) % WORD == n % WORD <==> n <= LONG_MAX
  {
  }

  /** The unsigned formats on one number: the largest signed one is what comes back of anything above it. */
  lemma UnsignedReadsBack(n: nat)
    requires n < WORD
    ensures Sscanf(Formatted("%u", 0, [Arg(n, Null)]), "%u") == (1, [Number(ReadBack(n), 32)])
    ensures Sscanf(Formatted("%#x", 0, [Arg(n, Null)]), "%x") == (1, [Number(ReadBack(n), 32)])
    ensures Sscanf(Formatted("%#X", 0, [Arg(n, Null)]), "%X") == (1, [Number(ReadBack(n), 32)])
    ensures Sscanf(Formatted("%#o", 0, [Arg(n, Null)]), "%o") == (1, [Number(ReadBack(n), 32)])
    ensures Sscanf(Formatted("%#o", 0, [Arg(n, Null)]), "%i") == (1, [Number(ReadBack(n), 32)])
  {
    hide Formatted, Sscanf, ReadBack;
    OneReadsBack(Uns, n, 'u', "%u", "%u");
    OneReadsBack(Hex(true, false), n, 'x', "%#x", "%x");
    OneReadsBack(Hex(true, true), n, 'X', "%#X", "%X");
    OneReadsBack(Oct(true), n, 'o', "%#o", "%o");
    OneReadsBack(Oct(true), n, 'i', "%#o", "%i");
  }

  lemma OneReadsBack(st: Style, n: nat, cf: char, out: string, scan: string)
    requires InRange(st, n) && Takes(st, cf) && out == "%" + PrintConv(st) && scan == "%" + [cf]
    ensures Sscanf(Formatted(out, 0, [Arg(n, Null)]), scan) == (1, [Number(ReadBack(n), 32)])
  {
    hide Formatted, Sscanf, ReadBack, PrintConv;
    PrintThenScan(st, [n], cf);
    assert Args([n]) == [Arg(n, Null)];
    assert Numbers([n]) == [Number(ReadBack(n), 32)];
    assert ListFormat(PrintConv(st), 1) == out && ListFormat([cf], 1) == scan;
  }

  /** The same through the code: vsprintf into a buffer, then vsscanf from it. */
  method PrintAndScan(st: Style, ns: seq<int>, cf: char) returns (rc: int, items: seq<Item>)
    requires AllInRange(st, ns) && ns != [] && Takes(st, cf)
    ensures rc == |ns| % 256 && items == Numbers(ns)
  {
    hide ListFormat, Formatted, Sscanf;
    var buffer, _ := Vsprintf(ListFormat(PrintConv(st), |ns|), Args(ns));
    var scanner := new Scanner(buffer);
    rc, items := scanner.Getf(ListFormat([cf], |ns|));
    PrintThenScan(st, ns, cf);
  }

  // --- Words ---

  predicate IsWord(w: string) {
    0 < |w| < 0xFFFF && forall i :: 0 <= i < |w| ==> !IsSpace(w[i]) && w[i] != '\0'
  }

  /** %s takes the rest of the word, up to the end of the input. */
  lemma {:induction false} WordReads(w: string, k: nat, width: nat)
    requires IsWord(w) && k < |w| && width >= |w| - k
    ensures NextWord(w, In(k + 1, w[k], false), width, w[..k]) == (w, In(|w|, w[|w| - 1], false))
    decreases |w| - k
  {
    assert w[..k] + [w[k]] == w[..k + 1];
    if k + 1 < |w| {
      assert At(w, k + 1) == w[k + 1];
      WordReads(w, k + 1, width - 1);
    } else {
      assert At(w, k + 1) == '\0';
      assert w[..k + 1] == w;
    }
  }

  /** A word printed by %s is read back by %s. */
  lemma WordPrintsAndScans(w: string, arg: Arg)
    requires IsWord(w) && arg.text == Text(w)
    ensures Formatted("%s", 0, [arg]) == w
    ensures Sscanf(w, "%s") == (1, [String(w)])
  {
    hide NextWord, Formatted;
    PrintsWord(w, arg);
    WordReads(w, 0, 0xFFFF);
    assert w[..0] == "";
    assert Flags("%s", Conv(0, false, false, 0, 1)) == Conv(0, false, false, 0, 1);
    var s := In(0, '\0', false);
    assert FindText(w, In(1, w[0], false)) == Found(In(1, w[0], false));
    assert Directive(w, "%s", 0, s, Score(0, 0, [])) ==
           (Go(In(|w|, w[|w| - 1], false), Score(1, 1, [] + [String(w)])), 2);
    ScanEnds(w, "%s", 2, In(|w|, w[|w| - 1], false), Score(1, 1, [] + [String(w)]));
    assert [] + [String(w)] == [String(w)];
  }

  lemma PrintsWord(w: string, arg: Arg)
    requires arg.text == Text(w)
    ensures Formatted("%s", 0, [arg]) == w
  {
    assert LiteralEnd("%s", 0) == 0;
    assert Modifiers("%s", 1, [arg], PLAIN) == Spec(PLAIN, 1, [arg]);
    FormatEnds("%s", 2, []);
    var p := Printf.Convert('s', PLAIN, [arg]);
    PlainPiece(p, PLAIN);
    assert "%s"[0..0] + Field(p, PLAIN) + "" == w;
  }

  lemma PlainPiece(p: Piece, m: Mods)
    requires m == PLAIN && p.dprec == 0 && !p.zero && p.sign == '\0'
    ensures Field(p, m) == p.text
  {
  }
}
