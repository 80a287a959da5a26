/**
 Formatted input of crt/getf.c, without floating point, over the string back end crt/vsscanf.c.
 */
module Scanf {
  import opened Machine
  import opened Printf

  predicate IsSpace(ch: char) {
    ch in " \t\n\r" || ch == 11 as char || ch == 12 as char
  }

  /** The position in the input, the character read last, and whether it still has to be looked at. */
  datatype In = In(pos: nat, ch: char, ready: bool)

  /** _sgetb for one character. */
  predicate More(input: string, s: In) {
    At(input, s.pos) != '\0'
  }

  function Get(input: string, s: In): In {
    s.(pos := s.pos + 1, ch := At(input, s.pos))
  }

  /** _sgetb for up to n characters. */
  function Take(input: string, pos: nat, n: nat): (t: string)
    ensures |t| <= n
    decreases n
  {
    if n == 0 || At(input, pos) == '\0' then "" else [At(input, pos)] + Take(input, pos + 1, n - 1)
  }

  // --- Directives ---

  /** White space in the format: reads on, whatever was ready, until something else has been read. */
  function SkipSpace(input: string, s: In): In
    decreases |input| - s.pos
  {
    if !More(input, s) then s
    else if IsSpace(Get(input, s).ch) then SkipSpace(input, Get(input, s))
    else Get(input, s).(ready := true)
  }

  /** Before a number or a string: to the first character that is no white space, if there is one. */
  datatype Found = Found(in_: In) | Nothing

  function FindText(input: string, s: In): Found
    decreases |input| - s.pos
  {
    if !IsSpace(s.ch) then Found(s)
    else if !More(input, s) then Nothing
    else FindText(input, Get(input, s))
  }

  /** The next character: the one that is ready, or a new one. */
  function Look(input: string, s: In): Found {
    if s.ready then Found(s) else if More(input, s) then Found(Get(input, s)) else Nothing
  }

  /** The integer lexer: its base, its flags, and the characters it has taken. */
  datatype Lexer = Lexer(base: nat, signOk: bool, noDigits: bool, prefixOk: bool, noZero: bool, text: string, in_: In)

  datatype Verdict = Accept(l: Lexer) | Refuse(l: Lexer)

  /** The base is known once there is a digit. */
  predicate Based(l: Lexer) {
    l.base in {0, 8, 10, 16} && (l.base == 0 ==> l.noDigits && !l.prefixOk)
  }

  function Classify(l: Lexer): (v: Verdict)
    ensures Based(l) ==> Based(v.l)
  {
    var ch := l.in_.ch;
    var digit := l.(signOk := false, prefixOk := false, noDigits := false);
    if ch == '0' then
      var l := if l.base == 0 then l.(base := 8, prefixOk := true) else l;
      if l.noZero then Accept(l.(signOk := false, noZero := false, noDigits := false))
      else Accept(l.(signOk := false, prefixOk := false, noDigits := false))
    else if '1' <= ch <= '7' then Accept(if l.base == 0 then digit.(base := 10) else digit)
    else if ch == '8' || ch == '9' then
      if l.base == 0 then Accept(digit.(base := 10))
      else if l.base <= 8 then Refuse(l)
      else Accept(digit)
    else if 'A' <= ch <= 'F' || 'a' <= ch <= 'f' then
      if l.base <= 10 then Refuse(l) else Accept(digit)
    else if ch == '-' || ch == '+' then
      if l.signOk then Accept(l.(signOk := false)) else Refuse(l)
    else if ch == 'x' || ch == 'X' then
      if l.prefixOk then Accept(l.(base := 16, prefixOk := false)) else Refuse(l)
    else Refuse(l.(in_ := l.in_.(ready := true)))
  }

  /** The loop over the characters of a number; width of them are allowed. */
  function Lex(input: string, l: Lexer, width: nat): (r: Lexer)
    ensures Based(l) ==> Based(r)
    decreases width
  {
    if width == 0 then l
    else
      match Classify(l)
      case Refuse(l) => l
      case Accept(l) =>
        var l := l.(text := l.text + [l.in_.ch]);
        if width == 1 || !More(input, l.in_) then l
        else Lex(input, l.(in_ := Get(input, l.in_)), width - 1)
  }

  // --- strtol ---

  function DigitValue(ch: char): nat {
    if '0' <= ch <= '9' then ch as int - '0' as int
    else if 'a' <= ch <= 'z' then ch as int - 'a' as int + 10
    else if 'A' <= ch <= 'Z' then ch as int - 'A' as int + 10
    else 99
  }

  /** The value of the digits from i on, added to acc. */
  function DigitsValue(s: string, i: nat, base: nat, acc: nat): nat
    decreases |s| - i
  {
    if i < |s| && DigitValue(s[i]) < base then DigitsValue(s, i + 1, base, acc * base + DigitValue(s[i])) else acc
  }

  predicate HexPrefix(s: string, i: nat) {
    At(s, i) == '0' && (At(s, i + 1) == 'x' || At(s, i + 1) == 'X') && DigitValue(At(s, i + 2)) < 16
  }

  /** Section 7.20.1.4 of ISO C99, for a string without leading white space and a known base. */
  function Strtol(s: string, base: nat): int
    requires base == 8 || base == 10 || base == 16
  {
    var i := if At(s, 0) == '-' || At(s, 0) == '+' then 1 else 0;
    var i := if base == 16 && HexPrefix(s, i) then i + 2 else i;
    var v: int := DigitsValue(s, i, base, 0);
    if At(s, 0) == '-' then (if v > LONG_MAX + 1 then -LONG_MAX - 1 else -v)
    else if v > LONG_MAX then LONG_MAX else v
  }

  // --- Conversions ---

  datatype Conv = Conv(width: nat, suppress: bool, long: bool, half: nat, at: nat)

  /** The modifiers of a conversion, up to its type. */
  function Flags(fmt: string, c: Conv): (r: Conv)
    requires c.at <= |fmt|
    ensures c.at <= r.at <= |fmt|
    decreases |fmt| - c.at
  {
    var cf := At(fmt, c.at);
    if cf == '*' then Flags(fmt, c.(suppress := true, at := c.at + 1))
    else if cf == 'l' then Flags(fmt, c.(long := true, at := c.at + 1))
    else if cf == 'h' then Flags(fmt, c.(half := (c.half + 1) % 256, at := c.at + 1))
    else if IsDigit(cf) then Flags(fmt, c.(width := c.width * 10 + (cf as int - '0' as int), at := c.at + 1))
    else c
  }

  function BaseOf(cf: char): nat {
    if cf == 'i' then 0 else if cf == 'o' then 8 else if cf == 'x' || cf == 'X' then 16 else 10
  }

  /** What is stored through one pointer argument. */
  datatype Item = Number(value: int, bits: nat) | String(chars: string)

  function Truncated(v: int, bits: nat): int
    requires bits == 8 || bits == 16 || bits == 32
  {
    var m := if bits == 8 then 0x100 else if bits == 16 then 0x10000 else WORD;
    var r := v % m;
    if r < m / 2 then r else r - m
  }

  /** Fields converted, fields assigned (both eight bits wide), and what has been stored. */
  datatype Score = Score(ccnt: nat, acnt: nat, items: seq<Item>)

  function Eof(sc: Score): int {
    if sc.ccnt != 0 then sc.acnt else -1
  }

  function Converted(sc: Score): Score {
    sc.(ccnt := (sc.ccnt + 1) % 256)
  }

  function Assigned(sc: Score): Score {
    Converted(sc.(acnt := (sc.acnt + 1) % 256))
  }

  /** The outcome of one directive: go on, or return. */
  datatype Step = Go(in_: In, score: Score) | Return(rc: int, items: seq<Item>)

  function Literal(input: string, cf: char, s: In, sc: Score): Step {
    match Look(input, s)
    case Nothing => Return(Eof(sc), sc.items)
    case Found(s) => if s.ch != cf then Return(sc.acnt, sc.items) else Go(s.(ready := false), sc)
  }

  /** Suppressed characters are read sixteen at a time. */
  function SkipChars(input: string, s: In, width: nat): Found
    decreases width
  {
    if width == 0 || s.ready then Found(s)
    else
      var n := if width > 16 then 16 else width;
      var t := Take(input, s.pos, n);
      if t == "" then Nothing else SkipChars(input, s.(pos := s.pos + |t|), width - n)
  }

  /** %c; a character that is ready counts, but is not stored. */
  function ScanChars(input: string, c: Conv, s: In, sc: Score): Step {
    var width := if c.width == 0 then 1 else c.width;
    if c.suppress then
      match SkipChars(input, s, width)
      case Nothing => Return(Eof(sc), sc.items)
      case Found(s) => Go(s.(ready := false), Converted(sc))
    else if s.ready then Go(s.(ready := false), Assigned(sc))
    else
      var t := Take(input, s.pos, width);
      if t == "" then Return(Eof(sc), sc.items)
      else Go(s.(pos := s.pos + |t|), Assigned(sc.(items := sc.items + [String(t)])))
  }

  /** The loop of %s from the first character on. */
  function NextWord(input: string, s: In, width: nat, text: string): (string, In)
    requires width > 0
    decreases width
  {
    if IsSpace(s.ch) then (text, s)
    else if width == 1 || !More(input, s) then (text + [s.ch], s)
    else NextWord(input, Get(input, s), width - 1, text + [s.ch])
  }

  function ScanString(input: string, c: Conv, s: In, sc: Score): Step {
    var (text, s) := NextWord(input, s, if c.width == 0 then 0xFFFF else c.width, "");
    Go(s, if c.suppress then Converted(sc) else Assigned(sc.(items := sc.items + [String(text)])))
  }

  const FIELD: nat := 15

  function ScanNumber(input: string, cf: char, c: Conv, s: In, sc: Score): Step {
    var width := if c.width == 0 || c.width > FIELD then FIELD else c.width;
    var l := Lex(input, Lexer(BaseOf(cf), true, true, cf == 'x' || cf == 'X', true, "", s), width);
    if l.noDigits then Return(sc.acnt, sc.items)
    else if c.suppress then Go(l.in_, Converted(sc))
    else
      var bits := if c.long then 32 else if c.half == 1 then 16 else if c.half > 1 then 8 else 32;
      Go(l.in_, Assigned(sc.(items := sc.items + [Number(Truncated(Strtol(l.text, l.base), bits), bits)])))
  }

  function Conversion(input: string, cf: char, c: Conv, s: In, sc: Score): Step {
    if cf == 'c' then ScanChars(input, c, s, sc)
    else
      match Look(input, s)
      case Nothing => Return(Eof(sc), sc.items)
      case Found(s) =>
        match FindText(input, s.(ready := false))
        case Nothing => Return(Eof(sc), sc.items)
        case Found(s) => if cf == 's' then ScanString(input, c, s, sc) else ScanNumber(input, cf, c, s, sc)
  }

  /** The directive at index j of the format, and the index after it. */
  function Directive(input: string, fmt: string, j: nat, s: In, sc: Score): (r: (Step, nat))
    requires j < |fmt|
    ensures j < r.1
  {
    var cf := At(fmt, j);
    if IsSpace(cf) then (Go(SkipSpace(input, s), sc), j + 1)
    else if cf != '%' then (Literal(input, cf, s, sc), j + 1)
    else if At(fmt, j + 1) == '%' then (Literal(input, '%', s, sc), j + 2)
    else
      var c := Flags(fmt, Conv(0, false, false, 0, j + 1));
      var cf := At(fmt, c.at);
      if cf == '\0' then (Return(-1, sc.items), c.at + 1)
      else (Conversion(input, cf, c, s, sc), c.at + 1)
  }

  /** _getf from index j of the format on: what it returns and what has been stored. */
  function Scan(input: string, fmt: string, j: nat, s: In, sc: Score): (int, seq<Item>)
    decreases |fmt| - j
  {
    if At(fmt, j) == '\0' then (sc.acnt, sc.items)
    else
      var (step, next) := Directive(input, fmt, j, s, sc);
      match step
      case Return(rc, items) => (rc, items)
      case Go(s, sc) => Scan(input, fmt, next, s, sc)
  }

  /** sscanf */
  function Sscanf(input: string, fmt: string): (int, seq<Item>) {
    Scan(input, fmt, 0, In(0, '\0', false), Score(0, 0, []))
  }

  // --- The code ---

  class Scanner {
    const input: string
    /** Where the string back end stands. */
    var pos: nat
    var ch: char
    var ch_ready: bool

    ghost function State(): In
      reads this
    {
      In(pos, ch, ch_ready)
    }

    constructor (input: string)
      ensures this.input == input && State() == In(0, '\0', false)
    {
      this.input := input;
      pos, ch, ch_ready := 0, '\0', false;
    }

    /** _getb for one character */
    method Getb() returns (ok: bool)
      modifies this`pos, this`ch
      ensures ok == More(input, old(State()))
      ensures State() == if ok then Get(input, old(State())) else old(State())
    {
      ok := At(input, pos) != '\0';
      if ok {
        ch := At(input, pos);
        pos := pos + 1;
      }
    }

    /** _getb for several characters */
    method GetBlock(n: nat) returns (t: string)
      modifies this`pos
      ensures t == Take(input, old(pos), n) && pos == old(pos) + |t|
    {
      t := "";
      while |t| < n && At(input, pos) != '\0'
        invariant |t| <= n && pos == old(pos) + |t|
        invariant Take(input, old(pos), n) == t + Take(input, pos, n - |t|)
        decreases n - |t|
      {
        t := t + [At(input, pos)];
        pos := pos + 1;
      }
    }

    method MatchSpace()
      modifies this
      ensures State() == SkipSpace(input, old(State()))
    {
      var more := true;
      while more
        invariant SkipSpace(input, old(State())) == if more then SkipSpace(input, State()) else State()
        decreases more, |input| - pos
      {
        var ok := Getb();
        if !ok {
          more := false;
        } else if !IsSpace(ch) {
          ch_ready := true;
          more := false;
        }
      }
    }

    method LookAhead() returns (ok: bool)
      modifies this`pos, this`ch
      ensures match Look(input, old(State())) case Found(s) => ok && State() == s case Nothing => !ok
    {
      ok := true;
      if !ch_ready {
        ok := Getb();
      }
    }

    /** A literal character; the result is what to return, or nothing to go on. */
    method MatchLiteral(cf: char, sc: Score) returns (step: Step)
      modifies this
      ensures step == Literal(input, cf, old(State()), sc) && (step.Go? ==> step.in_ == State())
    {
      var ok := LookAhead();
      if !ok { return Return(Eof(sc), sc.items); }
      if ch != cf { return Return(sc.acnt, sc.items); }
      ch_ready := false;
      step := Go(In(pos, ch, ch_ready), sc);
    }

    method CollectFlags(fmt: string, start: nat) returns (c: Conv)
      requires start <= |fmt|
      ensures c == Flags(fmt, Conv(0, false, false, 0, start))
    {
      c := Conv(0, false, false, 0, start);
      var more := true;
      while more
        invariant c.at <= |fmt|
        invariant Flags(fmt, Conv(0, false, false, 0, start)) == if more then Flags(fmt, c) else c
        decreases more, |fmt| - c.at
      {
        var cf := At(fmt, c.at);
        if cf == '*' {
          c := c.(suppress := true, at := c.at + 1);
        } else if cf == 'l' {
          c := c.(long := true, at := c.at + 1);
        } else if cf == 'h' {
          c := c.(half := (c.half + 1) % 256, at := c.at + 1);
        } else if IsDigit(cf) {
          c := c.(width := c.width * 10 + (cf as int - '0' as int), at := c.at + 1);
        } else {
          more := false;
        }
      }
    }

    method ConvertChars(c: Conv, sc: Score) returns (step: Step)
      modifies this
      ensures step == ScanChars(input, c, old(State()), sc) && (step.Go? ==> step.in_ == State())
    {
      var width: nat := if c.width == 0 then 1 else c.width;
      if c.suppress {
        ghost var from := State();
        while width > 0 && !ch_ready
          invariant SkipChars(input, from, if c.width == 0 then 1 else c.width) == SkipChars(input, State(), width)
          decreases width
        {
          var n := if width > 16 then 16 else width;
          var t := GetBlock(n);
          if t == "" { return Return(Eof(sc), sc.items); }
          width := width - n;
        }
        ch_ready := false;
        return Go(In(pos, ch, ch_ready), Converted(sc));
      }
      if ch_ready {
        ch_ready := false;
        return Go(In(pos, ch, ch_ready), Assigned(sc));
      }
      var t := GetBlock(width);
      if t == "" { return Return(Eof(sc), sc.items); }
      step := Go(In(pos, ch, ch_ready), Assigned(sc.(items := sc.items + [String(t)])));
    }

    method SkipToText() returns (ok: bool)
      modifies this`pos, this`ch
      ensures match FindText(input, old(State())) case Found(s) => ok && State() == s case Nothing => !ok
    {
      while IsSpace(ch)
        invariant ch_ready == old(ch_ready)
        invariant FindText(input, old(State())) == FindText(input, State())
        decreases |input| - pos
      {
        ok := Getb();
        if !ok { return; }
      }
      ok := true;
    }

    method ConvertString(c: Conv, sc: Score) returns (step: Step)
      modifies this`pos, this`ch
      ensures step == ScanString(input, c, old(State()), sc) && (step.Go? ==> step.in_ == State())
    {
      var width := if c.width == 0 then 0xFFFF else c.width;
      var text := "";
      var more := true;
      ghost var from, whole := State(), width;
      while more && !IsSpace(ch)
        invariant more ==> width > 0
        invariant ch_ready == old(ch_ready)
        invariant NextWord(input, from, whole, "") ==
                  if more then NextWord(input, State(), width, text) else (text, State())
        decreases more, width
      {
        text := text + [ch];
        width := width - 1;
        if width == 0 {
          more := false;
        } else {
          more := Getb();
        }
      }
      step := Go(In(pos, ch, ch_ready),
                 if c.suppress then Converted(sc) else Assigned(sc.(items := sc.items + [String(text)])));
    }

    /** The loop of the integer lexer. */
    method LexNumber(start: Lexer, limit: nat) returns (r: Lexer)
      requires start.in_ == State()
      modifies this
      ensures r == Lex(input, start, limit) && r.in_ == State()
    {
      hide Classify;
      r := start;
      var width := limit;
      var more := true;
      while more && width > 0
        invariant r.in_ == State()
        invariant Lex(input, start, limit) == if more then Lex(input, r, width) else r
        decreases more, width
      {
        match Classify(r) {
          case Refuse(l) =>
            ClassifyKeeps(r);
            r := l;
            ch_ready := l.in_.ready;
            more := false;
          case Accept(l) =>
            ClassifyKeeps(r);
            r := l.(text := l.text + [ch]);
            if width > 1 {
              more := Getb();
              r := r.(in_ := In(pos, ch, ch_ready));
            } else {
              more := false;
            }
            width := width - 1;
        }
      }
    }

    lemma ClassifyKeeps(l: Lexer)
      ensures match Classify(l)
              case Accept(r) => r.in_ == l.in_ && r.text == l.text
              case Refuse(r) => r.in_ == l.in_.(ready := r.in_.ready)
    {
    }

    method ConvertNumber(cf: char, c: Conv, sc: Score) returns (step: Step)
      modifies this
      ensures step == ScanNumber(input, cf, c, old(State()), sc) && (step.Go? ==> step.in_ == State())
    {
      hide Lex, Strtol;
      var width := if c.width == 0 || c.width > FIELD then FIELD else c.width;
      var l := LexNumber(Lexer(BaseOf(cf), true, true, cf == 'x' || cf == 'X', true, "", In(pos, ch, ch_ready)), width);
      if l.noDigits { return Return(sc.acnt, sc.items); }
      if c.suppress { return Go(In(pos, ch, ch_ready), Converted(sc)); }
      var bits := if c.long then 32 else if c.half == 1 then 16 else if c.half > 1 then 8 else 32;
      var res := Truncated(Strtol(l.text, l.base), bits);
      step := Go(In(pos, ch, ch_ready), Assigned(sc.(items := sc.items + [Number(res, bits)])));
    }

    method ConvertField(cf: char, c: Conv, sc: Score) returns (step: Step)
      modifies this
      ensures step == Conversion(input, cf, c, old(State()), sc) && (step.Go? ==> step.in_ == State())
    {
      hide ScanChars, ScanString, ScanNumber, FindText;
      if cf == 'c' {
        step := ConvertChars(c, sc);
        return;
      }
      var ok := LookAhead();
      if !ok { return Return(Eof(sc), sc.items); }
      ch_ready := false;
      ok := SkipToText();
      if !ok { return Return(Eof(sc), sc.items); }
      if cf == 's' {
        step := ConvertString(c, sc);
      } else {
        step := ConvertNumber(cf, c, sc);
      }
    }

    /** _getf */
    method Getf(fmt: string) returns (rc: int, items: seq<Item>)
      requires State() == In(0, '\0', false)
      modifies this
      ensures (rc, items) == Sscanf(input, fmt)
    {
      hide SkipSpace, Literal, Conversion, Flags;
      var sc := Score(0, 0, []);
      var j: nat := 0;
      while true
        invariant Scan(input, fmt, j, State(), sc) == Sscanf(input, fmt)
        decreases |fmt| - j
      {
        var cf := At(fmt, j);
        if cf == '\0' { return sc.acnt, sc.items; }
        var step: Step;
        if IsSpace(cf) {
          MatchSpace();
          j := j + 1;
        } else {
          if cf != '%' {
            step := MatchLiteral(cf, sc);
            j := j + 1;
          } else if At(fmt, j + 1) == '%' {
            step := MatchLiteral('%', sc);
            j := j + 2;
          } else {
            var c := CollectFlags(fmt, j + 1);
            cf := At(fmt, c.at);
            if cf == '\0' { return -1, sc.items; }
            step := ConvertField(cf, c, sc);
            j := c.at + 1;
          }
          match step {
            case Return(r, stored) => return r, stored;
            case Go(_, after) => sc := after;
          }
        }
      }
    }
  }
}
