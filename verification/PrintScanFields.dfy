/**
 What becomes of one number that is printed with any flags, width and precision and scanned again.
 */
module PrintScanFields {
  import opened Machine
  import opened Printf
  import opened PrintScan
  import opened Scanf

  // --- The shape of a field ---

  /** How far a field falls short of its width. */
  function Shortfall(p: Piece, m: Mods): nat {
    if m.width > |Body(p)| then m.width - |Body(p)| else 0
  }

  /** Zeros before the digits: for the precision, and those that fill the width. */
  function Zeros(p: Piece, m: Mods): nat {
    (if !m.left && p.zero then Shortfall(p, m) else 0) + if p.dprec > |p.text| then p.dprec - |p.text| else 0
  }

  /** Exactly one place of a field takes up the padding. */
  lemma FieldShape(p: Piece, m: Mods)
    ensures Field(p, m) == Pad(' ', if !m.left && !p.zero then Shortfall(p, m) else 0) + SignText(p.sign) +
                           Pad('0', Zeros(p, m)) + p.text + Pad(' ', if m.left then Shortfall(p, m) else 0)
  {
    hide SignText, Pad;
    var pad, digits := Shortfall(p, m), Pad('0', p.dprec - |p.text|);
    PadNone(' ', 0);
    PadNone('0', 0);
    PadNone(' ', m.width - |Body(p)|);
    PadNone('0', m.width - |Body(p)|);
    PadNone('0', p.dprec - |p.text|);
    if !m.left && p.zero {
      PadSplit('0', pad, if p.dprec > |p.text| then p.dprec - |p.text| else 0);
    }
    Affixes(SignText(p.sign), digits, p.text, Pad(' ', pad), Pad('0', pad));
  }

  lemma Affixes(sign: string, zeros: string, text: string, blanks: string, fill: string)
    ensures "" + sign + zeros + text + blanks == sign + zeros + text + blanks
    ensures "" + sign + (fill + zeros) + text + "" == sign + fill + zeros + text
    ensures blanks + sign + zeros + text + "" == blanks + (sign + zeros + text)
  {
  }

  /** Leading zeros do not change the value. */
  lemma {:induction false} ZerosKeepValue(k: nat, t: string, base: nat)
    requires base > 0
    ensures DigitsValue(Pad('0', k) + t, 0, base, 0) == DigitsValue(t, 0, base, 0)
    decreases k
  {
    hide DigitsValue;
    if k == 0 {
      assert Pad('0', 0) + t == t;
    } else {
      ZerosKeepValue(k - 1, t, base);
      var s := Pad('0', k) + t;
      assert s[1..] == Pad('0', k - 1) + t;
      DigitsShift(s, base, 0);
    }
  }

  lemma ZerosAreDigits(k: nat, t: string, base: nat)
    requires AllDigits(t, base) && base > 0
    ensures AllDigits(Pad('0', k) + t, base)
  {
  }

  /** The signs the modifiers can ask for. */
  predicate KnownSign(sign: char) {
    sign == '\0' || sign == ' ' || sign == '+'
  }

  lemma ModifierSign(fmt: string, i: nat, args: seq<Arg>, m: Mods)
    ensures var r := Modifier(fmt, i, args, m).mods.sign; r == m.sign || KnownSign(r)
  {
    hide Decimal, First, Rest, Signed, Precision;
  }

  lemma {:induction false} ModifiersSign(fmt: string, i: nat, args: seq<Arg>, m: Mods)
    requires i <= |fmt| && KnownSign(m.sign)
    ensures KnownSign(Modifiers(fmt, i, args, m).mods.sign)
    decreases |fmt| - i
  {
    hide Modifiers, Modifier, KnownSign;
    ModifiersStep(fmt, i, args, m);
    ModifierSign(fmt, i, args, m);
    var s := Modifier(fmt, i, args, m);
    if s.at != i { ModifiersSign(fmt, s.at, s.args, s.mods); }
  }

  /** Blanks before a number are skipped. */
  lemma {:induction false} BlanksSkipped(input: string, i: nat, a: nat)
    requires i <= a < |input| && (forall k :: i <= k < a ==> input[k] == ' ')
    requires !IsSpace(input[a]) && input[a] != '\0'
    ensures FindText(input, In(i + 1, input[i], false)) == Found(In(a + 1, input[a], false))
    decreases a - i
  {
    if i < a {
      assert At(input, i + 1) == input[i + 1];
      BlanksSkipped(input, i + 1, a);
    }
  }

  function SignedOf(sign: string, v: int): int {
    if sign == "-" then -v else v
  }

  /** The digits that fit into the field of the scanner behind the sign. */
  function Kept(sign: string, digits: string): string
    requires |sign| < FIELD
  {
    if |sign| + |digits| <= FIELD then digits else digits[..FIELD - |sign|]
  }

  /** A decimal number with a sign and leading zeros, after blanks, and followed by a blank or the end. */
  lemma SignedScans(input: string, a: nat, sign: string, digits: string, n: int, sc: Score)
    requires sign == "" || sign == "+" || sign == "-"
    requires AllDigits(digits, 10) && digits != ""
    requires HasAt(input, a, sign + digits) && Ends(input, a + |sign + digits|)
    requires InRange(Dec, n) && n == SignedOf(sign, DigitsValue(Kept(sign, digits), 0, 10, 0))
    ensures a < |input|
    ensures var r := ScanNumber(input, 'd', Conv(0, false, false, 0, 1), In(a + 1, input[a], false), sc);
            r.Go? && r.score == Assigned(sc.(items := sc.items + [Number(n, 32)]))
  {
    hide Lex, Truncated, DigitsValue, Strtol, AllDigits, HasAt, Ends, Kept, InRange;
    CharAt(input, a, sign + digits, 0);
    SignedLexes(input, a, sign, digits);
    KeptDigits(sign, digits, 10);
    SignedInRange(n);
    SignedValue(sign, Kept(sign, digits));
    KeepsWord(n);
  }

  lemma SignedInRange(n: int)
    requires InRange(Dec, n)
    ensures -LONG_MAX - 1 <= n <= LONG_MAX
  {
  }

  lemma KeptDigits(sign: string, digits: string, base: nat)
    requires |sign| <= 1 && AllDigits(digits, base) && digits != ""
    ensures AllDigits(Kept(sign, digits), base) && Kept(sign, digits) != ""
  {
  }

  lemma SignedLexes(input: string, a: nat, sign: string, digits: string)
    requires sign == "" || sign == "+" || sign == "-"
    requires AllDigits(digits, 10) && digits != ""
    requires HasAt(input, a, sign + digits) && Ends(input, a + |sign + digits|)
    ensures a < |input|
    ensures var r := Lex(input, Start('d', a, input[a]), FIELD);
            r.base == 10 && !r.noDigits && r.text == sign + Kept(sign, digits)
  {
    hide Lex, Classify, AllDigits, HasAt, Ends, AfterText, Kept;
    CharAt(input, a, sign + digits, 0);
    if sign == "" {
      assert "" + digits == digits && "" + Kept("", digits) == Kept("", digits);
      UnsignedLexes(input, a, digits, 'd');
    } else {
      SignLexes(input, a, sign, digits);
    }
  }

  lemma UnsignedLexes(input: string, a: nat, digits: string, cf: char)
    requires cf in "duoxX" && AllDigits(digits, BaseOf(cf)) && digits != ""
    requires HasAt(input, a, digits) && Ends(input, a + |digits|)
    ensures var r := Lex(input, Start(cf, a, digits[0]), FIELD);
            r.base == BaseOf(cf) && !r.noDigits && r.text == Kept("", digits)
  {
    hide Lex, Classify, AllDigits, HasAt, Ends, AfterText;
    LexDigits(input, Start(cf, a, digits[0]), FIELD, a, digits, 0);
    assert digits[0..] == digits && "" + digits == digits;
    if |digits| > FIELD { assert "" + digits[0..FIELD] == digits[..FIELD]; }
  }

  lemma SignLexes(input: string, a: nat, sign: string, digits: string)
    requires (sign == "+" || sign == "-") && AllDigits(digits, 10) && digits != ""
    requires HasAt(input, a, sign + digits) && Ends(input, a + |sign + digits|)
    ensures var r := Lex(input, Start('d', a, sign[0]), FIELD);
            r.base == 10 && !r.noDigits && r.text == sign + Kept(sign, digits)
  {
    hide Lex, Classify, AllDigits, HasAt, Ends, AfterText;
    CharAt(input, a, sign + digits, 1);
    HasTail(input, a, sign, digits);
    TakesSign(input, a, sign, digits[0]);
    LexDigits(input, AfterSign(a, sign, digits[0]), 14, a + 1, digits, 0);
    assert digits[0..] == digits;
  }

  function AfterSign(a: nat, sign: string, first: char): Lexer {
    Lexer(10, false, true, false, true, sign, In(a + 2, first, false))
  }

  lemma TakesSign(input: string, a: nat, sign: string, first: char)
    requires (sign == "+" || sign == "-") && At(input, a + 1) == first != '\0'
    ensures Lex(input, Start('d', a, sign[0]), FIELD) == Lex(input, AfterSign(a, sign, first), 14)
  {
    hide Lex, Classify;
    var l := Start('d', a, sign[0]);
    TakesEitherSign(l);
    LexStep(input, l, FIELD);
    assert "" + [sign[0]] == sign;
  }

  /** More digits make a number at least eight times as large. */
  lemma {:induction false} ValueGrows(t: string, base: nat, acc: nat)
    requires base in {8, 10, 16} && AllDigits(t, base) && t != ""
    ensures DigitsValue(t, 0, base, acc) >= 8 * acc
    decreases |t|
  {
    hide DigitsValue;
    DigitIsOf(t[0], base);
    DigitsShift(t, base, acc);
    var grown := acc * base + DigitValue(t[0]);
    assert grown >= 8 * acc;
    if |t| == 1 {
      NoDigits(base, grown);
      assert t[1..] == "";
    } else {
      ValueGrows(t[1..], base, grown);
    }
  }

  lemma KeptValue(sign: string, digits: string, base: nat)
    requires base in {8, 10, 16} && |sign| <= 1 && AllDigits(digits, base) && digits != ""
    ensures var v := DigitsValue(digits, 0, base, 0);
            var kept := DigitsValue(Kept(sign, digits), 0, base, 0);
            if |sign| + |digits| <= FIELD then kept == v else v >= 8 * kept
  {
    hide DigitsValue;
    if |sign| + |digits| > FIELD {
      var k := FIELD - |sign|;
      assert digits == digits[..k] + digits[k..];
      DigitsAppend(digits[..k], digits[k..], base, 0);
      ValueGrows(digits[k..], base, DigitsValue(digits[..k], 0, base, 0));
    }
  }

  lemma SignedValue(sign: string, digits: string)
    requires (sign == "" || sign == "+" || sign == "-") && AllDigits(digits, 10) && digits != ""
    requires DigitsValue(digits, 0, 10, 0) <= LONG_MAX + if sign == "-" then 1 else 0
    ensures Strtol(sign + digits, 10) == SignedOf(sign, DigitsValue(digits, 0, 10, 0))
  {
    hide DigitsValue;
    var t := sign + digits;
    FirstIsDigit(digits, 10);
    if sign == "" {
      assert t == digits;
    } else {
      assert t[1..] == digits;
      DigitsFrom(t, 1, 10, 0);
    }
  }

  /** The sign of a piece as the scanner sees it. */
  function Signal(p: Piece): string {
    if p.sign == ' ' then "" else SignText(p.sign)
  }

  /** The zeros and digits of a field. */
  function Ciphers(p: Piece, m: Mods): string {
    Pad('0', Zeros(p, m)) + p.text
  }

  /** A field of digits with a sign is read as the number that its first characters show. */
  lemma FieldScans(p: Piece, m: Mods, n: int)
    requires AllDigits(p.text, 10) && p.text != "" && (KnownSign(p.sign) || p.sign == '-')
    requires InRange(Dec, n) && n == SignedOf(Signal(p), DigitsValue(Kept(Signal(p), Ciphers(p, m)), 0, 10, 0))
    ensures Sscanf(Field(p, m), "%d") == (1, [Number(n, 32)])
  {
    hide Field, Sscanf, DigitsValue, AllDigits, InRange, Kept, HasAt, Ends, IsSpace, Ciphers, Lead, Trail, Pad;
    ZerosAreDigits(Zeros(p, m), p.text, 10);
    CiphersAre(p, m);
    FieldPlace(p, m);
    NumberPlace(Field(p, m), Lead(p, m), Signal(p), Ciphers(p, m), Trail(p, m), 10);
    ScanOne(Field(p, m), Lead(p, m), Signal(p), Ciphers(p, m), n);
  }

  lemma CiphersAre(p: Piece, m: Mods)
    ensures Ciphers(p, m) == Pad('0', Zeros(p, m)) + p.text && (p.text != "" ==> Ciphers(p, m) != "")
  {
  }

  function Lead(p: Piece, m: Mods): nat {
    (if !m.left && !p.zero then Shortfall(p, m) else 0) + if p.sign == ' ' then 1 else 0
  }

  function Trail(p: Piece, m: Mods): nat {
    if m.left then Shortfall(p, m) else 0
  }

  lemma FieldPlace(p: Piece, m: Mods)
    requires KnownSign(p.sign) || p.sign == '-'
    ensures Field(p, m) == Pad(' ', Lead(p, m)) + (Signal(p) + Ciphers(p, m)) + Pad(' ', Trail(p, m))
  {
    hide Field, Zeros, Shortfall, Pad;
    FieldShape(p, m);
    BlankSign(if !m.left && !p.zero then Shortfall(p, m) else 0, p.sign, Pad('0', Zeros(p, m)), p.text,
              Pad(' ', Trail(p, m)));
  }

  /** A blank in place of a sign is one more blank before the digits. */
  lemma BlankSign(pad: nat, sign: char, zeros: string, text: string, tail: string)
    requires KnownSign(sign) || sign == '-'
    ensures Pad(' ', pad) + SignText(sign) + zeros + text + tail ==
            Pad(' ', pad + if sign == ' ' then 1 else 0) +
            ((if sign == ' ' then "" else SignText(sign)) + (zeros + text)) + tail
  {
    if sign == ' ' {
      PadSplit(' ', pad, 1);
      assert Pad(' ', 1) == " ";
    }
  }

  lemma NumberPlace(f: string, lead: nat, sign: string, digits: string, trail: nat, base: nat)
    requires f == Pad(' ', lead) + (sign + digits) + Pad(' ', trail)
    requires (sign == "" || sign == "+" || sign == "-") && AllDigits(digits, base) && digits != ""
    ensures HasAt(f, lead, sign + digits) && Ends(f, lead + |sign + digits|)
    ensures forall k :: 0 <= k < lead ==> f[k] == ' '
    ensures !IsSpace((sign + digits)[0])
  {
    NoBlankDigits(digits, base);
    var t := sign + digits;
    assert f[lead..lead + |t|] == t;
    if sign == "" { assert t[0] == digits[0]; DigitIsNoSpace(digits[0], base); }
  }

  lemma ScanGoes(input: string, fmt: string, j: nat, s: In, sc: Score)
    requires j < |fmt| && At(fmt, j) != '\0'
    ensures var (step, next) := Directive(input, fmt, j, s, sc);
            match step
            case Go(in_, score) => Scan(input, fmt, j, s, sc) == Scan(input, fmt, next, in_, score)
            case Return(rc, items) => Scan(input, fmt, j, s, sc) == (rc, items)
  {
    hide Directive;
  }

  /** A number behind blanks, which is all there is to scan. */
  lemma ScanAt(f: string, lead: nat, cf: char, n: int)
    requires lead < |f| && (forall k :: 0 <= k < lead ==> f[k] == ' ') && !IsSpace(f[lead]) && f[lead] != '\0'
    requires cf in "duoxX"
    requires var sc := Score(0, 0, []);
             var r := ScanNumber(f, cf, Conv(0, false, false, 0, 1), In(lead + 1, f[lead], false), sc);
             r.Go? && r.score == Assigned(sc.(items := sc.items + [Number(n, 32)]))
    ensures Sscanf(f, "%" + [cf]) == (1, [Number(n, 32)])
  {
    hide FindText, ScanNumber, Flags, Scan;
    var s, sc := In(0, '\0', false), Score(0, 0, []);
    var fmt := "%" + [cf];
    BlanksSkipped(f, 0, lead);
    assert fmt[0..] == "%" + [cf] + "";
    ScanConversion(fmt, 0, cf, "", f, s, sc);
    ScanGoes(f, fmt, 0, s, sc);
    var r := ScanNumber(f, cf, Conv(0, false, false, 0, 1), In(lead + 1, f[lead], false), sc);
    ScanEnds(f, fmt, 2, r.in_, r.score);
    assert [] + [Number(n, 32)] == [Number(n, 32)];
  }

  lemma ScanOne(f: string, lead: nat, sign: string, digits: string, n: int)
    requires sign == "" || sign == "+" || sign == "-"
    requires AllDigits(digits, 10) && digits != ""
    requires HasAt(f, lead, sign + digits) && Ends(f, lead + |sign + digits|)
    requires (forall k :: 0 <= k < lead ==> f[k] == ' ') && !IsSpace((sign + digits)[0])
    requires InRange(Dec, n) && n == SignedOf(sign, DigitsValue(Kept(sign, digits), 0, 10, 0))
    ensures Sscanf(f, "%d") == (1, [Number(n, 32)])
  {
    hide ScanNumber, DigitsValue, AllDigits, Sscanf, Kept;
    CharAt(f, lead, sign + digits, 0);
    assert f[lead] == (sign + digits)[0];
    SignedScans(f, lead, sign, digits, n, Score(0, 0, []));
    ScanAt(f, lead, 'd', n);
    assert "%" + ['d'] == "%d";
  }

  /** In blanks there is no number. */
  lemma {:induction false} BlanksHaveNone(f: string, i: nat)
    requires i < |f| && forall k :: 0 <= k < |f| ==> f[k] == ' '
    ensures FindText(f, In(i + 1, ' ', false)) == Nothing
    decreases |f| - i
  {
    if i + 1 < |f| {
      assert At(f, i + 1) == f[i + 1];
      BlanksHaveNone(f, i + 1);
    }
  }

  /** A sign alone is no number. */
  lemma SignHasNone(f: string, a: nat, cf: char, sc: Score)
    requires a < |f| && f[a] == '+' && Ends(f, a + 1)
    ensures ScanNumber(f, cf, Conv(0, false, false, 0, 1), In(a + 1, '+', false), sc) == Return(sc.acnt, sc.items)
  {
    hide Lex, Classify, Strtol, Truncated;
    var l := Start(cf, a, '+');
    TakesEitherSign(l);
    LexStep(f, l, FIELD);
    assert "" + ['+'] == "+";
    LexStops(f, l.(signOk := false, text := "+", in_ := In(a + 2, ' ', false)), 14);
  }

  /** Nothing is stored for a field without digits. */
  lemma EmptyField(f: string, lead: nat, sign: string, trail: nat, cf: char)
    requires f == Pad(' ', lead) + sign + Pad(' ', trail) && (sign == "" || sign == "+")
    requires cf in "duoxX"
    ensures Sscanf(f, "%" + [cf]).1 == []
  {
    hide FindText, ScanNumber, Flags, Scan;
    var s, sc := In(0, '\0', false), Score(0, 0, []);
    var fmt := "%" + [cf];
    assert fmt[0..] == "%" + [cf] + "";
    ScanConversion(fmt, 0, cf, "", f, s, sc);
    ScanGoes(f, fmt, 0, s, sc);
    if sign == "+" {
      assert f[lead] == '+';
      BlanksSkipped(f, 0, lead);
      SignHasNone(f, lead, cf, sc);
    } else if f != "" {
      BlanksHaveNone(f, 0);
    }
  }

  /** A format that is one conversion with any flags, width and precision. */
  predicate OneConversion(fmt: string, args: seq<Arg>, ch: char) {
    |fmt| > 0 && fmt[0] == '%' && Modifiers(fmt, 1, args, PLAIN).at + 1 == |fmt| && fmt[|fmt| - 1] == ch && ch != '\0'
  }

  lemma OneField(fmt: string, args: seq<Arg>, ch: char)
    requires OneConversion(fmt, args, ch)
    ensures var s := Modifiers(fmt, 1, args, PLAIN);
            Formatted(fmt, 0, args) == Field(Printf.Convert(ch, s.mods, s.args), s.mods)
  {
    hide Modifiers, Field, Formatted, Printf.Convert;
    var s := Modifiers(fmt, 1, args, PLAIN);
    var p := Printf.Convert(ch, s.mods, s.args);
    FormattedStep(fmt, 0, args);
    FormatEnds(fmt, |fmt|, p.args);
    assert LiteralEnd(fmt, 0) == 0;
    EmptyFront(Field(p, s.mods));
    assert Field(p, s.mods) + "" == Field(p, s.mods);
  }

  /** The sign and the digits that are shown for a number. */
  function Shown(m: Mods, args: seq<Arg>): string {
    var p := Printf.Convert('d', m, args);
    Signal(p) + Ciphers(p, m)
  }

  /** What %d reads from the field of a number that shows digits. */
  lemma DecimalScans(m: Mods, args: seq<Arg>)
    requires KnownSign(m.sign)
    ensures var n := Signed(First(args).word);
            var r := Sscanf(Field(Printf.Convert('d', m, args), m), "%d");
            if n == 0 && m.prec == 0 then r.1 == []
            else r == (1, [Number(n, 32)]) <==> n == 0 || |Shown(m, args)| <= FIELD
  {
    hide Numeral, Field, Sscanf, DigitsValue, Zeros, AllDigits, Kept;
    var n := Signed(First(args).word);
    var p := Printf.Convert('d', m, args);
    if n == 0 && m.prec == 0 {
      NoDigitsShape(p, m, 'd');
      assert "%" + ['d'] == "%d";
    } else {
      var v := if n < 0 then -n else n;
      NumeralDigits(v, 10, false);
      NumeralValue(v, 10, false);
      ZerosKeepValue(Zeros(p, m), p.text, 10);
      ZerosAreDigits(Zeros(p, m), p.text, 10);
      KeptValue(Signal(p), Ciphers(p, m), 10);
      FieldScans(p, m, SignedOf(Signal(p), DigitsValue(Kept(Signal(p), Ciphers(p, m)), 0, 10, 0)));
    }
  }

  lemma NoDigitsShape(p: Piece, m: Mods, cf: char)
    requires p.text == "" && p.dprec == 0 && !p.zero && KnownSign(p.sign) && cf in "duoxX"
    ensures Sscanf(Field(p, m), "%" + [cf]).1 == []
  {
    hide Field, Sscanf, Shortfall, Lead, Trail, Pad;
    FieldPlace(p, m);
    PadNone('0', 0);
    assert Signal(p) + ("" + "") == Signal(p);
    EmptyField(Field(p, m), Lead(p, m), Signal(p), Trail(p, m), cf);
  }

  /**
   Whatever flags, width and precision %d is given, %d reads the number back if and only if it shows digits and they
   fit the field of the scanner with their sign; too many zeros do no harm.
   */
  lemma DecimalReadsBackIff(fmt: string, args: seq<Arg>)
    requires OneConversion(fmt, args, 'd')
    ensures var s := Modifiers(fmt, 1, args, PLAIN);
            var n := Signed(First(s.args).word);
            Sscanf(Formatted(fmt, 0, args), "%d") == (1, [Number(n, 32)]) <==>
            if n == 0 then s.mods.prec != 0 else |Shown(s.mods, s.args)| <= FIELD
  {
    hide Modifiers, Formatted, Sscanf, Field, Printf.Convert, Shown;
    OneField(fmt, args, 'd');
    ModifiersSign(fmt, 1, args, PLAIN);
    var s := Modifiers(fmt, 1, args, PLAIN);
    DecimalScans(s.mods, s.args);
  }

  // --- Unsigned conversions with any flags, width and precision ---

  /** The conversions of _getf that read what this one of _putf prints. */
  predicate Reads(ch: char, cf: char) {
    if ch == 'u' then cf in "du" else if ch == 'o' then cf == 'o' else ch in "xX" && cf in "xX"
  }

  /** The piece carries the prefix of a hexadecimal number. */
  predicate Marked(ch: char, m: Mods) {
    ch in "xX" && m.alt
  }

  lemma UnsignedStrtol(t: string, base: nat)
    requires base in {8, 10, 16} && AllDigits(t, base) && t != ""
    ensures Strtol(t, base) == ReadBack(DigitsValue(t, 0, base, 0))
  {
    hide DigitsValue;
    FirstIsDigit(t, base);
    if base == 16 { NoMark(t); }
  }

  /** Digits without a prefix, and their value. */
  lemma TextIs(ch: char, m: Mods, args: seq<Arg>, cf: char)
    requires Reads(ch, cf) && !Marked(ch, m)
    ensures var n, p := First(args).word, Printf.Convert(ch, m, args);
            p.sign == '\0' && p.dprec == m.prec && p.zero == Zeroed(m) &&
            if n == 0 && m.prec == 0 && ch in "uo" then p.text == ""
            else p.text != "" && AllDigits(p.text, BaseOf(cf)) && DigitsValue(p.text, 0, BaseOf(cf), 0) == n
  {
    hide Numeral, DigitsValue, AllDigits;
    var n := First(args).word;
    var base := if ch == 'u' then 10 else if ch == 'o' then 8 else 16;
    NumeralDigits(n, base, ch == 'X');
    NumeralValue(n, base, ch == 'X');
    if ch == 'o' { OctalMark(Numeral(n, 8, false)); }
  }

  lemma OctalMark(t: string)
    requires AllDigits(t, 8)
    ensures AllDigits("0" + t, 8) && DigitsValue("0" + t, 0, 8, 0) == DigitsValue(t, 0, 8, 0)
  {
    hide DigitsValue;
    ZeroIsOctal();
    ZeroIs(8);
    DigitsAppend("0", t, 8, 0);
  }

  /** What is read from digits behind zeros. */
  lemma PlainScans(p: Piece, m: Mods, cf: char)
    requires cf in "duoxX" && AllDigits(p.text, BaseOf(cf)) && p.text != "" && p.sign == '\0'
    ensures var v := DigitsValue(Kept("", Ciphers(p, m)), 0, BaseOf(cf), 0);
            Sscanf(Field(p, m), "%" + [cf]) == (1, [Number(ReadBack(v), 32)])
  {
    hide Field, Sscanf, DigitsValue, AllDigits, HasAt, Ends, IsSpace, Ciphers, Lead, Trail, Pad, Lex, Strtol, Truncated,
         Kept, ReadBack;
    var f, lead, digits, base := Field(p, m), Lead(p, m), Ciphers(p, m), BaseOf(cf);
    ZerosAreDigits(Zeros(p, m), p.text, base);
    CiphersAre(p, m);
    FieldPlace(p, m);
    NumberPlace(f, lead, "", digits, Trail(p, m), base);
    assert "" + digits == digits;
    CharAt(f, lead, digits, 0);
    UnsignedLexes(f, lead, digits, cf);
    KeptDigits("", digits, base);
    UnsignedStrtol(Kept("", digits), base);
    ReadBackFits(DigitsValue(Kept("", digits), 0, base, 0));
    ScanAt(f, lead, cf, ReadBack(DigitsValue(Kept("", digits), 0, base, 0)));
  }

  lemma ReadBackFits(v: nat)
    ensures 0 <= ReadBack(v) <= LONG_MAX && Truncated(ReadBack(v), 32) == ReadBack(v)
  {
  }

  /** One field has been read, and it is the word that was printed. */
  predicate GivesBack(n: nat, r: (int, seq<Item>)) {
    r.0 == 1 && SameWords([n], r.1)
  }

  lemma GivesBackIff(n: nat, v: nat)
    requires n < WORD
    ensures GivesBack(n, (1, [Number(ReadBack(v), 32)])) <==> n == ReadBack(v)
  {
    ReadBackFits(v);
    var items := [Number(ReadBack(v), 32)];
    assert items[0] == Number(ReadBack(v), 32) && [n][0] == n;
    assert SameWords([n], items) <==> ReadBack(v) % WORD == n % WORD;
  }

  /** Without a prefix, the digits have to fit the field of the scanner, zeros included. */
  lemma PlainReadsBackIff(ch: char, m: Mods, args: seq<Arg>, cf: char)
    requires Reads(ch, cf) && !Marked(ch, m)
    ensures var n, p := First(args).word, Printf.Convert(ch, m, args);
            GivesBack(n, Sscanf(Field(p, m), "%" + [cf])) <==>
            if n == 0 then ch in "uo" ==> m.prec != 0 else n <= LONG_MAX && |Ciphers(p, m)| <= FIELD
  {
    hide Field, Sscanf, DigitsValue, AllDigits, Ciphers, Kept, Printf.Convert, GivesBack, Zeros;
    var n, p, base := First(args).word, Printf.Convert(ch, m, args), BaseOf(cf);
    TextIs(ch, m, args, cf);
    if p.text == "" {
      NoDigitsShape(p, m, cf);
      NothingBack(n, Sscanf(Field(p, m), "%" + [cf]));
    } else {
      PlainScans(p, m, cf);
      CiphersAre(p, m);
      ZerosAreDigits(Zeros(p, m), p.text, base);
      ZerosKeepValue(Zeros(p, m), p.text, base);
      KeptValue("", Ciphers(p, m), base);
      GivesBackIff(n, DigitsValue(Kept("", Ciphers(p, m)), 0, base, 0));
    }
  }

  lemma NothingBack(n: nat, r: (int, seq<Item>))
    requires r.1 == []
    ensures !GivesBack(n, r)
  {
  }

  // --- Zeros in front of a prefix ---

  predicate ZerosAt(input: string, p: nat, k: nat) {
    forall i :: p <= i < p + k ==> At(input, i) == '0'
  }

  /** From the second zero on the prefix is not taken any more: the lexer stops in front of it. */
  lemma {:induction false} LexZeros(input: string, l: Lexer, width: nat, p: nat, k: nat)
    requires l.base == 16 && !l.noZero && l.in_ == In(p + 1, '0', false) && k > 0 && width > 0
    requires ZerosAt(input, p, k) && At(input, p + k) in "xX"
    ensures var r := Lex(input, l, width);
            r.base == 16 && !r.noDigits && r.text == l.text + Pad('0', if k < width then k else width)
    decreases k
  {
    hide Lex, Classify, Pad;
    TakesMoreZeros(l);
    var r := l.(signOk := false, prefixOk := false, noDigits := false, text := l.text + ['0']);
    OneZero();
    if width == 1 {
      LexLast(input, l);
    } else {
      LexStep(input, l, width);
      assert At(input, p + 1) != '\0';
      var m := r.(in_ := Get(input, r.in_));
      if k == 1 {
        RefusesMark(m);
        LexRefuses(input, m, width - 1);
      } else {
        LexZeros(input, m, width - 1, p + 1, k - 1);
        var j := if k < width then k - 1 else width - 1;
        PadSplit('0', 1, j);
        assert l.text + ['0'] + Pad('0', j) == l.text + (['0'] + Pad('0', j));
      }
    }
  }

  lemma OneZero()
    ensures Pad('0', 1) == "0" == ['0']
  {
  }

  lemma TakesMoreZeros(l: Lexer)
    requires l.base == 16 && !l.noZero && l.in_.ch == '0'
    ensures Classify(l) == Accept(l.(signOk := false, prefixOk := false, noDigits := false))
  {
  }

  lemma RefusesMark(l: Lexer)
    requires !l.prefixOk && l.in_.ch in "xX"
    ensures Classify(l) == Refuse(l)
  {
  }

  lemma LexRefuses(input: string, l: Lexer, width: nat)
    requires width > 0 && Classify(l) == Refuse(l)
    ensures Lex(input, l, width) == l
  {
    hide Classify;
  }

  lemma StartZeros(input: string, cf: char, p: nat, k: nat)
    requires cf in "xX" && k > 1
    requires ZerosAt(input, p, k) && At(input, p + k) in "xX"
    ensures var r := Lex(input, Start(cf, p, '0'), FIELD);
            r.base == 16 && !r.noDigits && r.text == Pad('0', if k < FIELD then k else FIELD)
  {
    hide Lex, Classify, Pad;
    var l := Start(cf, p, '0');
    TakesZero(l);
    LexStep(input, l, FIELD);
    assert At(input, p + 1) == '0';
    var m := l.(signOk := false, noZero := false, noDigits := false, text := "0", in_ := In(p + 2, '0', false));
    assert "" + ['0'] == "0";
    LexZeros(input, m, 14, p + 1, k - 1);
    OneZero();
    PadSplit('0', 1, if k < FIELD then k - 1 else 14);
  }

  lemma ZerosAreZero(k: nat)
    requires k > 0
    ensures Strtol(Pad('0', k), 16) == 0
  {
    hide DigitsValue;
    ZerosKeepValue(k, "", 16);
    NoDigits(16, 0);
    ZerosAreDigits(k, "", 16);
    assert Pad('0', k) + "" == Pad('0', k);
    UnsignedStrtol(Pad('0', k), 16);
  }

  /** A hexadecimal number with its prefix. */
  lemma MarkedIs(ch: char, m: Mods, args: seq<Arg>)
    requires Marked(ch, m)
    ensures var n, p := First(args).word, Printf.Convert(ch, m, args);
            p.sign == '\0' && InRange(Hex(true, ch == 'X'), n) && p.text == NumberText(Hex(true, ch == 'X'), n) &&
            p.text == HexMark(ch == 'X') + Numeral(n, 16, ch == 'X')
  {
    hide Numeral;
    HexText(First(args).word, true, ch == 'X');
    assert ['0', ch] == HexMark(ch == 'X');
  }

  lemma InField(f: string, lead: nat, t: string, trail: nat)
    requires f == Pad(' ', lead) + t + Pad(' ', trail) && t != ""
    ensures lead < |f| && f[lead] == t[0]
    ensures forall k :: 0 <= k < lead ==> f[k] == ' '
    ensures forall i :: lead <= i < lead + |t| ==> At(f, i) == t[i - lead]
  {
  }

  lemma ZerosInFront(zeros: nat, upper: bool, digits: string)
    ensures var t := Pad('0', zeros) + (HexMark(upper) + digits);
            |t| > zeros + 1 && (forall i :: 0 <= i <= zeros ==> t[i] == '0') && t[zeros + 1] in "xX"
  {
  }

  /** Zeros in front of the prefix, for the width or for the precision, are all that is read. */
  lemma ZeroFilledScans(ch: char, m: Mods, args: seq<Arg>, cf: char)
    requires Reads(ch, cf) && Marked(ch, m) && Zeros(Printf.Convert(ch, m, args), m) > 0
    ensures Sscanf(Field(Printf.Convert(ch, m, args), m), "%" + [cf]) == (1, [Number(0, 32)])
  {
    hide Field, Sscanf, Lead, Trail, Pad, Lex, Strtol, Zeros, Printf.Convert, Numeral, NumberText;
    var p := Printf.Convert(ch, m, args);
    var f, lead, zeros := Field(p, m), Lead(p, m), Zeros(p, m);
    MarkedIs(ch, m, args);
    FieldPlace(p, m);
    assert Ciphers(p, m) == Signal(p) + Ciphers(p, m);
    InField(f, lead, Ciphers(p, m), Trail(p, m));
    ZerosInFront(zeros, ch == 'X', Numeral(First(args).word, 16, ch == 'X'));
    StartZeros(f, cf, lead, zeros + 1);
    ZerosAreZero(if zeros + 1 < FIELD then zeros + 1 else FIELD);
    ScanAt(f, lead, cf, 0);
  }

  lemma TextPlace(f: string, lead: nat, t: string, trail: nat)
    requires f == Pad(' ', lead) + t + Pad(' ', trail) && '\0' !in t
    ensures HasAt(f, lead, t) && Ends(f, lead + |t|)
  {
    assert f[lead..lead + |t|] == t;
  }

  /** A number as one of the plain formats prints it, between blanks. */
  lemma TextScans(st: Style, n: int, cf: char, lead: nat, trail: nat)
    requires InRange(st, n) && Takes(st, cf) && cf in "duoxX"
    ensures Sscanf(Pad(' ', lead) + NumberText(st, n) + Pad(' ', trail), "%" + [cf]) == (1, [Number(ReadBack(n), 32)])
  {
    hide Sscanf, Pad, NumberText, ReadBack, ScanNumber, IsSpace, HasAt;
    var t := NumberText(st, n);
    var f := Pad(' ', lead) + t + Pad(' ', trail);
    TextClean(st, n);
    InField(f, lead, t, trail);
    TextPlace(f, lead, t, trail);
    NumberScans(st, n, cf, f, lead, 1, Score(0, 0, []));
    CharAt(f, lead, t, 0);
    StartsNumber(st, n);
    ScanAt(f, lead, cf, ReadBack(n));
  }

  /** Without such zeros the number is read with its prefix. */
  lemma MarkedScans(ch: char, m: Mods, args: seq<Arg>, cf: char)
    requires Reads(ch, cf) && Marked(ch, m) && Zeros(Printf.Convert(ch, m, args), m) == 0
    ensures Sscanf(Field(Printf.Convert(ch, m, args), m), "%" + [cf]) == (1, [Number(ReadBack(First(args).word), 32)])
  {
    hide Field, Sscanf, Lead, Trail, Pad, Zeros, Printf.Convert, Numeral, NumberText, ReadBack;
    var p := Printf.Convert(ch, m, args);
    MarkedIs(ch, m, args);
    FieldPlace(p, m);
    PadNone('0', 0);
    assert Signal(p) + ("" + p.text) == p.text;
    TextScans(Hex(true, ch == 'X'), First(args).word, cf, Lead(p, m), Trail(p, m));
  }

  /** What has to hold for a number printed without a sign to be read back. */
  predicate Readable(ch: char, m: Mods, args: seq<Arg>) {
    var n, p := First(args).word, Printf.Convert(ch, m, args);
    if n == 0 then ch in "uo" ==> m.prec != 0
    else n <= LONG_MAX && if Marked(ch, m) then Zeros(p, m) == 0 else |Ciphers(p, m)| <= FIELD
  }

  /**
   Whatever flags, width and precision %u, %o, %x or %X is given, the word is read back if and only if it shows digits
   and is zero, or is at most 2^31-1, with no zeros in front of a prefix and no more characters than the scanner takes.
   */
  lemma UnsignedReadsBackIff(fmt: string, args: seq<Arg>, ch: char, cf: char)
    requires OneConversion(fmt, args, ch) && Reads(ch, cf)
    ensures var s := Modifiers(fmt, 1, args, PLAIN);
            GivesBack(First(s.args).word, Sscanf(Formatted(fmt, 0, args), "%" + [cf])) <==> Readable(ch, s.mods, s.args)
  {
    hide Modifiers, Formatted, Sscanf, Field, Printf.Convert, GivesBack, Zeros, Ciphers;
    OneField(fmt, args, ch);
    var s := Modifiers(fmt, 1, args, PLAIN);
    var n := First(s.args).word;
    if !Marked(ch, s.mods) {
      PlainReadsBackIff(ch, s.mods, s.args, cf);
    } else if Zeros(Printf.Convert(ch, s.mods, s.args), s.mods) > 0 {
      ZeroFilledScans(ch, s.mods, s.args, cf);
      GivesBackIff(n, 0);
      ReadBackFits(0);
    } else {
      MarkedScans(ch, s.mods, s.args, cf);
      GivesBackIff(n, n);
    }
  }
}
