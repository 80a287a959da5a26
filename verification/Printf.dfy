/**
 Formatted output of crt/putf.c, without floating point, and its string back end crt/vsprintf.c.
 */
module Printf {
  import opened Machine

  /** What a C program reads at index i of a string. */
  function At(s: string, i: nat): char {
    if i < |s| then s[i] else '\0'
  }

  predicate IsDigit(ch: char) {
    '0' <= ch <= '9'
  }

  /** One argument: its 32 bit word, and the string if it points to one. */
  datatype Text = Null | Text(chars: string)
  datatype Arg = Arg(word: nat, text: Text)

  /** An argument that was not passed reads as zero. */
  function First(args: seq<Arg>): (a: Arg)
    ensures a.word < WORD
  {
    if args == [] then Arg(0, Null) else args[0].(word := args[0].word % WORD)
  }

  function Rest(args: seq<Arg>): seq<Arg> {
    if args == [] then [] else args[1..]
  }

  function Signed(word: nat): int {
    if word < WORD / 2 then word else word - WORD
  }

  // --- Numerals ---

  function DigitChar(d: nat, upper: bool): char
    requires d < 16
  {
    if upper then "0123456789ABCDEF"[d] else "0123456789abcdef"[d]
  }

  function Numeral(n: nat, base: nat, upper: bool): (s: string)
    requires 2 <= base <= 16
    ensures |s| > 0
    decreases n
  {
    if n < base then [DigitChar(n, upper)] else Numeral(n / base, base, upper) + [DigitChar(n % base, upper)]
  }

  // --- Conversion specifications ---

  datatype Mods = Mods(sign: char, width: int, prec: int, left: bool, alt: bool, zero: bool, long: bool)

  const PLAIN := Mods('\0', 0, -1, false, false, false, false)

  /** A run of decimal digits: its value, and where it ends. */
  function Decimal(fmt: string, i: nat, acc: nat): (nat, nat)
    decreases |fmt| - i
  {
    if IsDigit(At(fmt, i)) then Decimal(fmt, i + 1, 10 * acc + (At(fmt, i) as int - '0' as int)) else (acc, i)
  }

  lemma {:induction false} DecimalAdvances(fmt: string, i: nat, acc: nat)
    ensures i <= Decimal(fmt, i, acc).1 && (i <= |fmt| ==> Decimal(fmt, i, acc).1 <= |fmt|)
    decreases |fmt| - i
  {
    if IsDigit(At(fmt, i)) { DecimalAdvances(fmt, i + 1, 10 * acc + (At(fmt, i) as int - '0' as int)); }
  }

  datatype Spec = Spec(mods: Mods, at: nat, args: seq<Arg>)

  function Precision(prec: int): int {
    if prec < 0 then -1 else prec
  }

  /** One modifier at i, or nothing if the character there is none. */
  function Modifier(fmt: string, i: nat, args: seq<Arg>, m: Mods): (s: Spec)
    ensures s.at == i <==> At(fmt, i) !in " +-#0lz*." && !('1' <= At(fmt, i) <= '9')
    ensures i < |fmt| ==> i <= s.at <= |fmt|
  {
    var ch := At(fmt, i);
    DecimalAdvances(fmt, i + 1, 0);
    DecimalAdvances(fmt, i + 1, ch as int);
    if ch == ' ' then Spec(if m.sign == '\0' then m.(sign := ' ') else m, i + 1, args)
    else if ch == '+' then Spec(m.(sign := '+'), i + 1, args)
    else if ch == '-' then Spec(m.(left := true), i + 1, args)
    else if ch == '#' then Spec(m.(alt := true), i + 1, args)
    else if ch == '0' then Spec(m.(zero := true), i + 1, args)
    else if ch == 'l' then Spec(m.(long := true), i + 1, args)
    else if ch == 'z' then Spec(m, i + 1, args)
    else if ch == '*' then
      var w := Signed(First(args).word);
      Spec(if w < 0 then m.(width := -w, left := true) else m.(width := w), i + 1, Rest(args))
    else if ch == '.' then
      if At(fmt, i + 1) == '*' then
        Spec(m.(prec := Precision(Signed(First(args).word))), i + 2, Rest(args))
      else
        var (prec, at) := Decimal(fmt, i + 1, 0);
        Spec(m.(prec := prec), at, args)
    else if '1' <= ch <= '9' then
      DecimalAdvances(fmt, i + 1, ch as int - '0' as int);
      var (width, at) := Decimal(fmt, i + 1, ch as int - '0' as int);
      Spec(m.(width := width), at, args)
    else Spec(m, i, args)
  }

  function Modifiers(fmt: string, i: nat, args: seq<Arg>, m: Mods): (s: Spec)
    requires i <= |fmt|
    ensures i <= s.at <= |fmt|
    decreases |fmt| - i
  {
    var s := Modifier(fmt, i, args, m);
    if s.at == i then s else Modifiers(fmt, s.at, s.args, s.mods)
  }

  /** A converted argument: what is printed, its sign, and the least number of digits. */
  datatype Piece = Piece(text: string, sign: char, dprec: int, zero: bool, args: seq<Arg>)

  function Zeroed(m: Mods): bool {
    m.zero && m.prec < 0
  }

  function Convert(ch: char, m: Mods, args: seq<Arg>): Piece {
    var word := First(args).word;
    if ch == 'c' then Piece([(word % 256) as char], '\0', 0, m.zero, Rest(args))
    else if ch == 's' then
      var s := if First(args).text.Null? then "(null)" else First(args).text.chars;
      Piece(if 0 <= m.prec < |s| then s[..m.prec] else s, '\0', 0, m.zero, Rest(args))
    else if ch == 'd' || ch == 'i' then
      var v := Signed(word);
      Piece(Digits(if v < 0 then -v else v, 10, m, false), if v < 0 then '-' else m.sign, m.prec, Zeroed(m), Rest(args))
    else if ch == 'u' then
      Piece(Digits(word, 10, m, false), '\0', m.prec, Zeroed(m), Rest(args))
    else if ch == 'o' then
      var s := Digits(word, 8, m, false);
      Piece(if m.alt && s != "" && s[0] != '0' then "0" + s else s, '\0', m.prec, Zeroed(m), Rest(args))
    else if ch == 'x' || ch == 'X' || ch == 'p' then
      var s := Numeral(word, 16, ch == 'X');
      Piece(if ch == 'p' then "0x" + s else if m.alt then ['0', ch] + s else s, '\0', m.prec, Zeroed(m), Rest(args))
    else if ch in "gGeEf" then Piece([ch], '\0', 0, m.zero, Rest(args))
    else Piece([ch], '\0', 0, m.zero, args)
  }

  /** The digits of an integer; zero with precision zero has none. */
  function Digits(n: nat, base: nat, m: Mods, upper: bool): string
    requires 2 <= base <= 16
  {
    if n == 0 && m.prec == 0 then "" else Numeral(n, base, upper)
  }

  function Pad(ch: char, n: int): (s: string)
    ensures |s| == if n > 0 then n else 0
  {
    if n <= 0 then "" else seq(n, _ => ch)
  }

  function SignText(sign: char): string {
    if sign == '\0' then "" else [sign]
  }

  /** The piece without padding to the field width. */
  function Body(p: Piece): string {
    SignText(p.sign) + Pad('0', p.dprec - |p.text|) + p.text
  }

  /** The field: exactly one of the three kinds of padding fills it up. */
  function Field(p: Piece, m: Mods): string {
    var pad := m.width - |Body(p)|;
    if m.left then Body(p) + Pad(' ', pad)
    else if p.zero then SignText(p.sign) + Pad('0', pad) + Pad('0', p.dprec - |p.text|) + p.text
    else Pad(' ', pad) + Body(p)
  }

  /** The field is as wide as asked for, unless its content is wider. */
  lemma FieldWidth(p: Piece, m: Mods)
    ensures |Field(p, m)| == if m.width >= |Body(p)| then m.width else |Body(p)|
    ensures |Body(p)| == |SignText(p.sign)| + if p.dprec > |p.text| then p.dprec else |p.text|
  {
  }

  /** The characters up to the next percent sign. */
  function LiteralEnd(fmt: string, i: nat): (e: nat)
    requires i <= |fmt|
    ensures i <= e <= |fmt| && (At(fmt, e) == '\0' || At(fmt, e) == '%')
    decreases |fmt| - i
  {
    if At(fmt, i) == '\0' || At(fmt, i) == '%' then i else LiteralEnd(fmt, i + 1)
  }

  /** Everything printed from index i of the format on. */
  function Formatted(fmt: string, i: nat, args: seq<Arg>): string
    requires i <= |fmt|
    decreases |fmt| - i
  {
    var e := LiteralEnd(fmt, i);
    if At(fmt, e) == '\0' then fmt[i..e]
    else
      var s := Modifiers(fmt, e + 1, args, PLAIN);
      if At(fmt, s.at) == '\0' then fmt[i..e]
      else
        var p := Convert(At(fmt, s.at), s.mods, s.args);
        fmt[i..e] + Field(p, s.mods) + Formatted(fmt, s.at + 1, p.args)
  }

  // --- The buffer is large enough ---

  const BUF: nat := 16

  function Eight(k: nat): nat {
    if k == 0 then 1 else 8 * Eight(k - 1)
  }

  /** Every digit taken off leaves a smaller power of eight. */
  lemma TakesDigit(n: nat, base: nat, k: nat)
    requires (base == 8 || base == 10 || base == 16) && k > 0 && n < Eight(k)
    ensures n / base < Eight(k - 1)
  {
  }

  lemma WordFits(n: nat)
    requires n < WORD
    ensures n < Eight(11)
  {
    assert Eight(3) == 512;
    assert Eight(6) == 512 * Eight(3);
    assert Eight(9) == 512 * Eight(6);
    assert Eight(11) == 64 * Eight(9);
  }

  // --- The code ---

  function Flat(chunks: seq<string>): string {
    if chunks == [] then "" else Flat(chunks[..|chunks| - 1]) + chunks[|chunks| - 1]
  }

  predicate NoneEmpty(chunks: seq<string>) {
    forall i :: 0 <= i < |chunks| ==> chunks[i] != ""
  }

  /** What _putb is given, call by call. */
  class Sink {
    var chunks: seq<string>

    ghost function Written(): string
      reads this
    {
      Flat(chunks)
    }

    constructor ()
      ensures chunks == [] && Written() == ""
    {
      chunks := [];
    }

    /** The string in the buffer that _sputb has filled. */
    method Collect() returns (s: string)
      ensures s == Written()
    {
      s := Flat(chunks);
    }

    /** _putb: an empty chunk would mean a flush and never comes. */
    method Put(s: string)
      requires s != ""
      modifies this
      ensures Written() == old(Written()) + s && (old(NoneEmpty(chunks)) ==> NoneEmpty(chunks))
    {
      chunks := chunks + [s];
      assert chunks[..|chunks| - 1] == old(chunks);
    }

    /** _putpad, sixteen characters at a time. */
    method PutPad(ch: char, count: int)
      modifies this
      ensures Written() == old(Written()) + Pad(ch, count) && (old(NoneEmpty(chunks)) ==> NoneEmpty(chunks))
    {
      hide Pad, Flat, NoneEmpty;
      PadNone(ch, count);
      PadNone(ch, 0);
      var left := count;
      ghost var done := 0;
      while left > BUF
        invariant done >= 0 && left + done == count && (done > 0 ==> left > 0)
        invariant Written() == old(Written()) + Pad(ch, done)
        invariant old(NoneEmpty(chunks)) ==> NoneEmpty(chunks)
        decreases left
      {
        PadSplit(ch, done, BUF);
        Put(Pad(ch, BUF));
        left := left - BUF;
        done := done + BUF;
      }
      if left > 0 {
        PadSplit(ch, done, left);
        Put(Pad(ch, left));
      }
    }

    /** The part of _putf after a conversion. */
    method PutField(p: Piece, m: Mods) returns (n: nat)
      modifies this
      ensures Written() == old(Written()) + Field(p, m) && n == |Field(p, m)|
      ensures old(NoneEmpty(chunks)) ==> NoneEmpty(chunks)
    {
      hide Pad, Flat, NoneEmpty, Body, Field, SignText;
      FieldWidth(p, m);
      FieldParts(p, m);
      ghost var w := Written();
      ghost var f := Parts(p, m);
      var size := |p.text|;
      var realsz := if p.dprec > size then p.dprec else size;
      SignLength(p.sign);
      if p.sign != '\0' {
        realsz := realsz + 1;
      }
      if !m.left && !p.zero {
        PutPad(' ', m.width - realsz);
      }
      assert Written() == w + f.0;
      if p.sign != '\0' {
        Put([p.sign]);
      }
      assert Written() == w + f.0 + f.1;
      if !m.left && p.zero {
        PutPad('0', m.width - realsz);
      }
      assert Written() == w + f.0 + f.1 + f.2;
      PutPad('0', p.dprec - size);
      if size > 0 {
        Put(p.text);
      }
      assert Written() == w + f.0 + f.1 + f.2 + f.3 + p.text;
      if m.left {
        PutPad(' ', m.width - realsz);
      }
      assert Written() == w + f.0 + f.1 + f.2 + f.3 + p.text + f.4;
      Regroup(w, f.0, f.1, f.2, f.3, p.text, f.4);
      n := if m.width >= realsz then m.width else realsz;
    }
  }

  /** The parts of a field in the order they are put out, apart from the text. */
  ghost function Parts(p: Piece, m: Mods): (string, string, string, string, string) {
    var pad := m.width - |Body(p)|;
    (if !m.left && !p.zero then Pad(' ', pad) else "", SignText(p.sign),
     if !m.left && p.zero then Pad('0', pad) else "", Pad('0', p.dprec - |p.text|),
     if m.left then Pad(' ', pad) else "")
  }

  lemma FieldParts(p: Piece, m: Mods)
    ensures var f := Parts(p, m); Field(p, m) == f.0 + f.1 + f.2 + f.3 + p.text + f.4
  {
    var f := Parts(p, m);
    hide Pad, SignText;
    if m.left {
      assert f.0 + f.1 + f.2 + f.3 == f.1 + f.3;
    } else if p.zero {
      assert f.0 + f.1 + f.2 + f.3 + p.text + f.4 == f.1 + f.2 + f.3 + p.text;
    } else {
      assert f.0 + f.1 + f.2 + f.3 + p.text + f.4 == f.0 + (f.1 + f.3 + p.text);
    }
  }

  lemma SignLength(sign: char)
    ensures |SignText(sign)| == (if sign == '\0' then 0 else 1) && (sign != '\0' ==> SignText(sign) == [sign])
    ensures sign == '\0' ==> SignText(sign) == ""
  {
  }

  lemma Regroup(w: string, a: string, b: string, c: string, d: string, e: string, f: string)
    ensures w + a + b + c + d + e + f == w + (a + b + c + d + e + f)
  {
  }

  lemma PadNone(ch: char, n: int)
    ensures n <= 0 ==> Pad(ch, n) == ""
  {
  }

  lemma PadSplit(ch: char, m: nat, n: nat)
    ensures Pad(ch, m + n) == Pad(ch, m) + Pad(ch, n)
  {
  }

  /** The loops that write digits backwards into the buffer; alpha is the table of digits. */
  method PutDigits(buf: array<char>, ulval: nat, base: nat, upper: bool) returns (cp: nat)
    requires buf.Length == BUF && ulval < WORD && (base == 8 || base == 10 || base == 16)
    modifies buf
    ensures 5 <= cp < BUF && buf[cp..] == Numeral(ulval, base, upper)
  {
    hide Numeral, DigitChar, Eight, Left;
    cp := BUF;
    var n: nat := ulval;
    var done := false;
    WordFits(n);
    EightIsPositive();
    LeftEnds(n, base, upper);
    while !done || n > 0
      invariant 5 <= cp <= BUF && n < Eight(cp - 5) && (done <==> cp < BUF)
      invariant Numeral(ulval, base, upper) == Left(done, n, base, upper) + buf[cp..]
      decreases !done, n
    {
      TakesDigit(n, base, cp - 5);
      LeftAttached(done, n, base, upper, buf[cp..]);
      var digit := DigitChar(n % base, upper);
      PushFront(buf, cp - 1, digit);
      cp := cp - 1;
      n := n / base;
      done := true;
    }
  }

  /** `*--cp = ch`: another character before those in the buffer. */
  method PushFront(buf: array<char>, at: nat, ch: char)
    requires at < buf.Length
    modifies buf
    ensures buf[at..] == [ch] + old(buf[at + 1..])
  {
    buf[at] := ch;
  }

  lemma LeftEnds(n: nat, base: nat, upper: bool)
    requires 2 <= base <= 16
    ensures Left(false, n, base, upper) == Numeral(n, base, upper) && Left(true, 0, base, upper) == ""
  {
    hide Numeral;
  }

  lemma EightIsPositive()
    ensures Eight(0) == 1
  {
  }

  /** The digits still to be written. */
  function Left(done: bool, n: nat, base: nat, upper: bool): string
    requires 2 <= base <= 16
  {
    if done && n == 0 then "" else Numeral(n, base, upper)
  }

  lemma LeftStep(done: bool, n: nat, base: nat, upper: bool)
    requires 2 <= base <= 16 && (!done || n > 0)
    ensures Left(done, n, base, upper) == Left(true, n / base, base, upper) + [DigitChar(n % base, upper)]
  {
    hide DigitChar;
    if n < base {
      SmallRemainder(n, base);
    } else {
      LargeQuotient(n, base);
    }
  }

  lemma LeftAttached(done: bool, n: nat, base: nat, upper: bool, written: string)
    requires 2 <= base <= 16 && (!done || n > 0)
    ensures Left(done, n, base, upper) + written ==
            Left(true, n / base, base, upper) + ([DigitChar(n % base, upper)] + written)
  {
    hide Left, DigitChar;
    LeftStep(done, n, base, upper);
  }

  lemma SmallRemainder(n: nat, base: nat)
    requires n < base
    ensures n / base == 0 && n % base == n
  {
  }

  lemma LargeQuotient(n: nat, base: nat)
    requires n >= base > 0
    ensures n / base > 0
  {
  }

  /** The loop over a run of digits. */
  method ScanDecimal(fmt: string, start: nat, init: nat) returns (value: nat, i: nat)
    ensures (value, i) == Decimal(fmt, start, init)
  {
    value, i := init, start;
    while IsDigit(At(fmt, i))
      invariant Decimal(fmt, start, init) == Decimal(fmt, i, value)
      decreases |fmt| - i
    {
      value := 10 * value + (At(fmt, i) as int - '0' as int);
      i := i + 1;
    }
  }

  /** The loop over the modifiers after a percent sign. */
  method ScanModifiers(fmt: string, start: nat, given: seq<Arg>) returns (m: Mods, i: nat, args: seq<Arg>)
    requires start <= |fmt|
    ensures Spec(m, i, args) == Modifiers(fmt, start, given, PLAIN)
  {
    hide Modifiers;
    m, i, args := PLAIN, start, given;
    var going := true;
    while going
      invariant i <= |fmt|
      invariant Modifiers(fmt, start, given, PLAIN) ==
                if going then Modifiers(fmt, i, args, m) else Spec(m, i, args)
      decreases going, |fmt| - i
    {
      ModifiersStep(fmt, i, args, m);
      var ch := At(fmt, i);
      if ch == ' ' {
        if m.sign == '\0' { m := m.(sign := ' '); }
        i := i + 1;
      } else if ch == '+' {
        m, i := m.(sign := '+'), i + 1;
      } else if ch == '-' {
        m, i := m.(left := true), i + 1;
      } else if ch == '#' {
        m, i := m.(alt := true), i + 1;
      } else if ch == '0' {
        m, i := m.(zero := true), i + 1;
      } else if ch == 'l' {
        m, i := m.(long := true), i + 1;
      } else if ch == 'z' {
        i := i + 1;
      } else if ch == '*' {
        var width := Signed(First(args).word);
        args, i := Rest(args), i + 1;
        if width < 0 {
          m := m.(left := true);
          width := -width;
        }
        m := m.(width := width);
      } else if ch == '.' {
        var prec: int;
        i := i + 1;
        if At(fmt, i) == '*' {
          i := i + 1;
          prec, args := Signed(First(args).word), Rest(args);
        } else {
          prec, i := ScanDecimal(fmt, i, 0);
        }
        m := m.(prec := if prec < 0 then -1 else prec);
      } else if '1' <= ch <= '9' {
        var width;
        width, i := ScanDecimal(fmt, i + 1, ch as int - '0' as int);
        m := m.(width := width);
      } else {
        going := false;
      }
    }
  }

  lemma ModifiersStep(fmt: string, i: nat, args: seq<Arg>, m: Mods)
    requires i <= |fmt|
    ensures var s := Modifier(fmt, i, args, m);
            Modifiers(fmt, i, args, m) == (if s.at == i then s else Modifiers(fmt, s.at, s.args, s.mods)) &&
            i <= s.at <= |fmt|
  {
    hide Modifier;
  }

  /** The switch over the conversion character. */
  method ConvertArg(ch: char, m: Mods, args: seq<Arg>) returns (p: Piece)
    ensures p == Convert(ch, m, args)
  {
    hide Numeral;
    var buf := new char[BUF];
    var ulval := First(args).word;
    match ch {
      case 'c' =>
        buf[0] := (ulval % 256) as char;
        assert buf[..1] == [buf[0]];
        p := Piece(buf[..1], '\0', 0, m.zero, Rest(args));
      case 's' =>
        var cp := if First(args).text.Null? then "(null)" else First(args).text.chars;
        var size := |cp|;
        if m.prec >= 0 && size > m.prec { size := m.prec; }
        assert cp[..|cp|] == cp;
        p := Piece(cp[..size], '\0', 0, m.zero, Rest(args));
      case 'u' =>
        p := ConvertDigits(buf, ulval, 10, '\0', m, Rest(args));
      case 'd' =>
        p := ConvertSigned(buf, ulval, m, Rest(args));
      case 'i' =>
        p := ConvertSigned(buf, ulval, m, Rest(args));
      case 'o' =>
        p := ConvertDigits(buf, ulval, 8, '\0', m, Rest(args));
      case _ =>
        if ch == 'x' || ch == 'X' || ch == 'p' {
          p := ConvertHex(buf, ch, ulval, m, Rest(args));
        } else {
          buf[0] := ch;
          assert buf[..1] == [ch];
          p := Piece(buf[..1], '\0', 0, m.zero, if ch in "gGeEf" then Rest(args) else args);
        }
    }
  }

  method ConvertSigned(buf: array<char>, word: nat, m: Mods, rest: seq<Arg>) returns (p: Piece)
    requires buf.Length == BUF && word < WORD
    modifies buf
    ensures var v := Signed(word);
            p == Piece(Digits(if v < 0 then -v else v, 10, m, false),
                       if v < 0 then '-' else m.sign, m.prec, Zeroed(m), rest)
  {
    var sign, ulval := m.sign, word;
    if Signed(word) < 0 {
      ulval := WORD - ulval;
      sign := '-';
    }
    p := ConvertDigits(buf, ulval, 10, sign, m.(alt := false), rest);
  }

  /** Decimal and octal digits; the alternate form of an octal number starts with a zero. */
  method ConvertDigits(buf: array<char>, word: nat, base: nat, sign: char, m: Mods, rest: seq<Arg>) returns (p: Piece)
    requires buf.Length == BUF && word < WORD && (base == 8 || base == 10)
    modifies buf
    ensures var s := Digits(word, base, m, false);
            p == Piece(if base == 8 && m.alt && s != "" && s[0] != '0' then "0" + s else s,
                       sign, m.prec, Zeroed(m), rest)
  {
    hide Numeral;
    var zero := if m.prec >= 0 then false else m.zero;
    var cp := BUF;
    if word != 0 || m.prec != 0 {
      cp := PutDigits(buf, word, base, false);
      if base == 8 && m.alt && buf[cp] != '0' {
        PushFront(buf, cp - 1, '0');
        cp := cp - 1;
      }
    }
    p := Piece(buf[cp..], sign, m.prec, zero, rest);
  }

  method ConvertHex(buf: array<char>, conv: char, word: nat, m: Mods, rest: seq<Arg>) returns (p: Piece)
    requires buf.Length == BUF && word < WORD
    modifies buf
    ensures var s := Numeral(word, 16, conv == 'X');
            p == Piece(if conv == 'p' then "0x" + s else if m.alt then ['0', conv] + s else s,
                       '\0', m.prec, Zeroed(m), rest)
  {
    var alt := m.alt || conv == 'p';
    var ch := if conv == 'p' then 'x' else conv;
    var cp := PutDigits(buf, word, 16, ch == 'X');
    if alt {
      ghost var digits := buf[cp..];
      PushFront(buf, cp - 1, ch);
      PushFront(buf, cp - 2, '0');
      assert ['0'] + ([ch] + digits) == ['0', ch] + digits;
      cp := cp - 2;
    }
    p := Piece(buf[cp..], '\0', m.prec, if m.prec >= 0 then false else m.zero, rest);
  }

  /** _putf: the value returned is the number of characters put out. */
  method Putf(sink: Sink, fmt: string, given: seq<Arg>) returns (rc: nat)
    modifies sink
    ensures sink.Written() == old(sink.Written()) + Formatted(fmt, 0, given)
    ensures rc == |Formatted(fmt, 0, given)|
    ensures old(NoneEmpty(sink.chunks)) ==> NoneEmpty(sink.chunks)
  {
    hide Flat, NoneEmpty, Formatted, Modifiers, Convert, Field, Remaining, LiteralEnd, IsDigit;
    rc := 0;
    var i: nat, args := 0, given;
    var going := true;
    ghost var w, done := sink.Written(), "";
    RemainingIs(fmt, i, args);
    while going
      invariant i <= |fmt| && sink.Written() == w + done && rc == |done|
      invariant Formatted(fmt, 0, given) == done + Remaining(fmt, i, args, going)
      invariant old(NoneEmpty(sink.chunks)) ==> NoneEmpty(sink.chunks)
      decreases going, |fmt| - i
    {
      FormattedStep(fmt, i, args);
      var e := ScanLiteral(fmt, i);
      if e > i {
        sink.Put(fmt[i..e]);
        rc := rc + (e - i);
      }
      ghost var before := done;
      Append(w, done, fmt[i..e]);
      done := done + fmt[i..e];
      RemainingIs(fmt, i, args);
      if At(fmt, e) == '\0' {
        going := false;
      } else {
        var m, at, rest := ScanModifiers(fmt, e + 1, args);
        if At(fmt, at) == '\0' {
          return;
        }
        RemainingIs(fmt, at + 1, Convert(At(fmt, at), m, rest).args);
        AppendField(before, fmt[i..e], Field(Convert(At(fmt, at), m, rest), m),
                    Formatted(fmt, at + 1, Convert(At(fmt, at), m, rest).args));
        var p := ConvertArg(At(fmt, at), m, rest);
        var n := sink.PutField(p, m);
        Append(w, done, Field(p, m));
        done := done + Field(p, m);
        rc := rc + n;
        i, args := at + 1, p.args;
      }
    }
    RemainingIs(fmt, i, args);
  }

  lemma Append(w: string, done: string, s: string)
    ensures w + done + s == w + (done + s)
  {
  }

  function Remaining(fmt: string, i: nat, args: seq<Arg>, going: bool): string
    requires i <= |fmt|
  {
    if going then Formatted(fmt, i, args) else ""
  }

  lemma RemainingIs(fmt: string, i: nat, args: seq<Arg>)
    requires i <= |fmt|
    ensures Remaining(fmt, i, args, true) == Formatted(fmt, i, args) && Remaining(fmt, i, args, false) == ""
  {
    hide Formatted;
  }

  lemma AppendField(done: string, lit: string, field: string, rest: string)
    ensures done + (lit + field + rest) == done + lit + field + rest
  {
  }

  lemma FormattedStep(fmt: string, i: nat, args: seq<Arg>)
    requires i <= |fmt|
    ensures var e := LiteralEnd(fmt, i);
            if At(fmt, e) == '\0' then Formatted(fmt, i, args) == fmt[i..e]
            else
              e < |fmt| &&
              var s := Modifiers(fmt, e + 1, args, PLAIN);
              if At(fmt, s.at) == '\0' then Formatted(fmt, i, args) == fmt[i..e]
              else
                s.at < |fmt| &&
                var p := Convert(At(fmt, s.at), s.mods, s.args);
                Formatted(fmt, i, args) == fmt[i..e] + Field(p, s.mods) + Formatted(fmt, s.at + 1, p.args)
  {
    hide Modifiers, Convert, Field;
  }

  /** The loop up to the next percent sign. */
  method ScanLiteral(fmt: string, start: nat) returns (e: nat)
    requires start <= |fmt|
    ensures e == LiteralEnd(fmt, start)
  {
    e := start;
    while At(fmt, e) != '\0' && At(fmt, e) != '%'
      invariant start <= e <= |fmt| && LiteralEnd(fmt, start) == LiteralEnd(fmt, e)
      decreases |fmt| - e
    {
      e := e + 1;
    }
  }

  /** vsprintf */
  method Vsprintf(fmt: string, args: seq<Arg>) returns (buffer: string, rc: nat)
    ensures buffer == Formatted(fmt, 0, args) && rc == |buffer|
  {
    var sink := new Sink();
    rc := Putf(sink, fmt, args);
    buffer := sink.Collect();
  }
}
