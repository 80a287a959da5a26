/**
 The tokenizer of crt/strtok_r.c, which cuts a string in place.
 */
module Tokenizer {
  // --- On values ---

  /** Where the first token of s ends. */
  function Cut(s: string, delim: string): (e: nat)
    ensures e <= |s| && (forall k :: 0 <= k < e ==> s[k] !in delim) && (e < |s| ==> s[e] in delim)
  {
    if s == "" || s[0] in delim then 0 else 1 + Cut(s[1..], delim)
  }

  /** A token and the delimiter that ended it, or NUL. */
  datatype Token = Token(text: string, sep: char)

  /** What calling strsep_rs until it returns NULL gives. */
  function Split(s: string, delim: string): seq<Token>
    decreases |s|
  {
    if s == "" then []
    else
      var e := Cut(s, delim);
      if e == |s| then [Token(s, '\0')] else [Token(s[..e], s[e])] + Split(s[e + 1..], delim)
  }

  function Join(ts: seq<Token>): string {
    if ts == [] then "" else ts[0].text + (if ts[0].sep == '\0' then "" else [ts[0].sep]) + Join(ts[1..])
  }

  predicate Clean(s: string) {
    '\0' !in s
  }

  lemma SplitStep(s: string, delim: string)
    requires s != ""
    ensures var e := Cut(s, delim);
            Split(s, delim) == if e == |s| then [Token(s, '\0')] else [Token(s[..e], s[e])] + Split(s[e + 1..], delim)
  {
    hide Cut;
  }

  lemma JoinStep(t: Token, ts: seq<Token>)
    ensures Join([t] + ts) == t.text + (if t.sep == '\0' then "" else [t.sep]) + Join(ts)
  {
    assert ([t] + ts)[1..] == ts;
  }

  /** The tokens and their separators put together are the string. */
  lemma {:induction false} JoinSplit(s: string, delim: string)
    requires Clean(s)
    ensures Join(Split(s, delim)) == s
    decreases |s|
  {
    hide Join, Split;
    if s == "" {
      NoTokens(delim);
    } else {
      var e := Cut(s, delim);
      SplitStep(s, delim);
      if e == |s| {
        JoinStep(Token(s, '\0'), []);
        NoTokens(delim);
        assert [Token(s, '\0')] + [] == [Token(s, '\0')];
      } else {
        JoinSplit(s[e + 1..], delim);
        JoinStep(Token(s[..e], s[e]), Split(s[e + 1..], delim));
        assert s[e] in s;
        assert s == s[..e] + [s[e]] + s[e + 1..];
      }
    }
  }

  lemma NoTokens(delim: string)
    ensures Split("", delim) == [] && Join([]) == ""
  {
  }

  /** No token holds a delimiter, every separator is one, and only the last token can have none. */
  lemma {:induction false} SplitIsClean(s: string, delim: string)
    ensures forall i :: 0 <= i < |Split(s, delim)| ==> forall c :: c in Split(s, delim)[i].text ==> c !in delim
    ensures forall i :: 0 <= i < |Split(s, delim)| ==>
              Split(s, delim)[i].sep in delim || (i == |Split(s, delim)| - 1 && Split(s, delim)[i].sep == '\0')
    decreases |s|
  {
    if s != "" {
      var e := Cut(s, delim);
      assert forall c :: c in s[..e] ==> c !in delim;
      if e == |s| {
        assert s[..e] == s;
      } else {
        SplitIsClean(s[e + 1..], delim);
      }
    }
  }

  function Count(s: string, delim: string): nat {
    if s == "" then 0 else (if s[0] in delim then 1 else 0) + Count(s[1..], delim)
  }

  lemma {:induction false} CountAt(s: string, delim: string, e: nat)
    requires e == Cut(s, delim)
    ensures Count(s, delim) == if e == |s| then 0 else 1 + Count(s[e + 1..], delim)
    decreases |s|
  {
    if s != "" && s[0] !in delim {
      CountAt(s[1..], delim, e - 1);
      if e < |s| { assert s[1..][e..] == s[e + 1..]; }
    }
  }

  /** One token for each delimiter, and one more unless the string ends with a delimiter. */
  lemma {:induction false} TokenCount(s: string, delim: string)
    ensures |Split(s, delim)| == Count(s, delim) + if s == "" || s[|s| - 1] in delim then 0 else 1
    decreases |s|
  {
    hide Split, Count;
    if s == "" {
      NoTokens(delim);
      NoCount(delim);
    } else {
      var e := Cut(s, delim);
      SplitStep(s, delim);
      CountAt(s, delim, e);
      if e < |s| {
        TokenCount(s[e + 1..], delim);
        assert s[e + 1..] != "" ==> s[e + 1..][|s| - e - 2] == s[|s| - 1];
      }
    }
  }

  lemma NoCount(delim: string)
    ensures Count("", delim) == 0
  {
  }

  // --- In place ---

  datatype Pointer = Null | To(at: nat)

  /** The C string at a position of the buffer. */
  function StringAt(b: string, p: nat): (s: string)
    requires p <= |b|
    ensures p + |s| <= |b| && s == b[p..p + |s|] && '\0' !in s
    ensures p + |s| < |b| ==> b[p + |s|] == '\0'
    decreases |b| - p
  {
    if p == |b| || b[p] == '\0' then ""
    else
      var rest := StringAt(b, p + 1);
      assert [b[p]] + rest == b[p..p + 1 + |rest|];
      [b[p]] + rest
  }

  predicate Terminated(b: string, p: nat) {
    p < |b| && p + |StringAt(b, p)| < |b|
  }

  /** The string at p is the one that ends at the first NUL. */
  lemma {:induction false} StringIs(b: string, p: nat, e: nat)
    requires p <= e < |b| && b[e] == '\0' && forall k :: p <= k < e ==> b[k] != '\0'
    ensures StringAt(b, p) == b[p..e] && Terminated(b, p)
    decreases e - p
  {
    if p < e {
      StringIs(b, p + 1, e);
      assert b[p..e] == [b[p]] + b[p + 1..e];
    }
  }

  lemma CutIs(s: string, delim: string, e: nat)
    requires e <= |s| && (forall k :: 0 <= k < e ==> s[k] !in delim) && (e < |s| ==> s[e] in delim)
    ensures Cut(s, delim) == e
  {
  }

  /** Where the next token starts, and the buffer with its end cut off. */
  function NextAt(s: string, p: nat, delim: string): nat {
    var e := Cut(s, delim);
    if e == |s| then p + e else p + e + 1
  }

  function CutOff(b: string, p: nat, e: nat, n: nat): string
    requires p + e < |b|
  {
    if e == n then b else b[p + e := '\0']
  }

  function Separator(s: string, delim: string): char {
    var e := Cut(s, delim);
    if e == |s| then '\0' else s[e]
  }

  /** end_tok */
  method EndTok(buf: array<char>, p: nat, delim: string) returns (tok: nat, next: nat, sep: char)
    requires Terminated(buf[..], p)
    modifies buf
    ensures var s := old(StringAt(buf[..], p));
            tok == p && next == NextAt(s, p, delim) && sep == Separator(s, delim) &&
            buf[..] == CutOff(old(buf[..]), p, Cut(s, delim), |s|)
  {
    hide StringAt, Cut;
    ghost var s := StringAt(buf[..], p);
    tok, sep := p, '\0';
    var ch := p;
    while buf[ch] != '\0'
      invariant p <= ch <= p + |s| < buf.Length && buf[..] == old(buf[..])
      invariant forall k :: 0 <= k < ch - p ==> s[k] !in delim
      decreases p + |s| - ch
    {
      assert ch < p + |s| && s[ch - p] == buf[ch];
      var found := Contains(delim, buf[ch]);
      if found {
        CutIs(s, delim, ch - p);
        sep := buf[ch];
        buf[ch] := '\0';
        next := ch + 1;
        return;
      }
      ch := ch + 1;
    }
    CutIs(s, delim, ch - p);
    next := ch;
  }

  /** The loop over the delimiters. */
  method Contains(delim: string, c: char) returns (found: bool)
    ensures found <==> c in delim
  {
    var sp := 0;
    while sp < |delim|
      invariant sp <= |delim| && c !in delim[..sp]
    {
      if delim[sp] == c { return true; }
      sp := sp + 1;
    }
    assert delim[..sp] == delim;
    found := false;
  }

  /** A string argument that may be NULL. */
  datatype Delim = None | Some(chars: string)

  /** strsep_rs: the token, the pointer left for the next call, and the separator. */
  method StrsepRs(buf: array<char>, str: Pointer, delim: Delim) returns (tok: Pointer, next: Pointer, sep: char)
    requires str.To? ==> Terminated(buf[..], str.at)
    modifies buf
    ensures str.Null? || old(StringAt(buf[..], str.at)) == "" ==>
              tok == Null && next == str && sep == '\0' && buf[..] == old(buf[..])
    ensures str.To? && old(StringAt(buf[..], str.at)) != "" && (delim.None? || delim.chars == "") ==>
              tok == str && next == Null && sep == '\0' && buf[..] == old(buf[..])
    ensures str.To? && old(StringAt(buf[..], str.at)) != "" && delim.Some? && delim.chars != "" ==>
              var s := old(StringAt(buf[..], str.at));
              tok == str && next == To(NextAt(s, str.at, delim.chars)) && sep == Separator(s, delim.chars) &&
              buf[..] == CutOff(old(buf[..]), str.at, Cut(s, delim.chars), |s|)
  {
    hide CutOff, NextAt, Separator;
    sep := '\0';
    if str.Null? { return Null, Null, sep; }
    if buf[str.at] == '\0' { return Null, str, sep; }
    if delim.None? || delim.chars == "" { return str, Null, sep; }
    var t, n, c := EndTok(buf, str.at, delim.chars);
    return To(t), To(n), c;
  }

  /** The buffer with the delimiters among the characters from p to e overwritten. */
  predicate Overwritten(now: string, was: string, p: nat, e: nat, delim: string) {
    |now| == |was| && e <= |was| &&
    forall i :: 0 <= i < |was| ==> now[i] == if p <= i < e && was[i] in delim then '\0' else was[i]
  }

  /** Reads the C string at a position. */
  method TextAt(buf: array<char>, p: nat) returns (t: string)
    requires Terminated(buf[..], p)
    ensures t == StringAt(buf[..], p)
  {
    hide StringAt;
    ghost var s := StringAt(buf[..], p);
    var e := p;
    while buf[e] != '\0'
      invariant p <= e <= p + |s| && forall k :: p <= k < e ==> buf[k] != '\0'
      decreases p + |s| - e
    {
      e := e + 1;
    }
    StringIs(buf[..], p, e);
    t := buf[p..e];
  }

  /** The string s of the buffer at start has been tokenized up to done. */
  predicate Midway(b: string, was: string, start: nat, s: string, done: nat, delim: string) {
    done <= |s| && start + |s| < |was| && was[start..start + |s|] == s && Clean(s) && was[start + |s|] == '\0' &&
    Overwritten(b, was, start, start + done, delim)
  }

  lemma RestIs(b: string, was: string, start: nat, s: string, done: nat, delim: string)
    requires Midway(b, was, start, s, done, delim)
    ensures Terminated(b, start + done) && StringAt(b, start + done) == s[done..]
  {
    hide StringAt;
    var end := start + |s|;
    forall k | start + done <= k < end ensures b[k] == s[k - start] != '\0' {
      assert was[start..end][k - start] == was[k];
      assert s[k - start] in s;
    }
    StringIs(b, start + done, end);
    assert b[start + done..end] == s[done..];
  }

  /** One call moves on by a token and cuts it off. */
  lemma MoveOn(b: string, was: string, start: nat, s: string, done: nat, delim: string)
    requires Midway(b, was, start, s, done, delim) && done < |s|
    ensures var rest := s[done..];
            var e := Cut(rest, delim);
            var b' := CutOff(b, start + done, e, |rest|);
            Terminated(b', start + done) && StringAt(b', start + done) == rest[..e] &&
            Midway(b', was, start, s, NextAt(rest, done, delim), delim)
  {
    hide StringAt, Cut, Overwritten;
    var rest := s[done..];
    var e := Cut(rest, delim);
    RestStays(b, was, start, s, done, delim);
    var b' := CutOff(b, start + done, e, |rest|);
    StringIs(b', start + done, start + done + e);
    assert b'[start + done..start + done + e] == rest[..e];
    CutOverwrites(b, was, start, s, done, delim);
  }

  /** What has not been looked at is as it was. */
  lemma RestStays(b: string, was: string, start: nat, s: string, done: nat, delim: string)
    requires Midway(b, was, start, s, done, delim)
    ensures |b| == |was| && b[start + |s|] == '\0'
    ensures forall k :: start + done <= k < start + |s| ==> b[k] == was[k] == s[k - start] != '\0'
  {
    forall k | start + done <= k < start + |s| ensures b[k] == was[k] == s[k - start] != '\0' {
      assert was[start..start + |s|][k - start] == was[k];
      assert s[k - start] in s;
    }
  }

  lemma CutOverwrites(b: string, was: string, start: nat, s: string, done: nat, delim: string)
    requires Midway(b, was, start, s, done, delim) && done < |s|
    ensures var rest := s[done..];
            NextAt(rest, done, delim) <= |s| &&
            Overwritten(CutOff(b, start + done, Cut(rest, delim), |rest|), was, start,
                        start + NextAt(rest, done, delim), delim)
  {
    hide Cut;
    RestStays(b, was, start, s, done, delim);
    var rest := s[done..];
    var e := Cut(rest, delim);
    forall k | start + done <= k < start + |s| ensures was[k] == rest[k - start - done] {}
  }

  lemma SplitMoves(s: string, done: nat, delim: string)
    requires done < |s|
    ensures var rest := s[done..];
            var t := Token(rest[..Cut(rest, delim)], Separator(rest, delim));
            NextAt(rest, done, delim) <= |s| && NextAt(rest, done, delim) > done &&
            Split(rest, delim) == [t] + Split(s[NextAt(rest, done, delim)..], delim)
  {
    hide Cut;
    var rest := s[done..];
    var e := Cut(rest, delim);
    SplitStep(rest, delim);
    if e < |rest| {
      assert rest[e + 1..] == s[done + e + 1..];
    } else {
      assert s[|s|..] == "" && rest[..e] == rest;
      NoTokens(delim);
    }
  }

  /** One call of strsep_rs in the midst of the string s of the buffer. */
  method NextToken(buf: array<char>, ghost was: string, ghost start: nat, ghost s: string, ghost done: nat, p: Pointer,
                   delim: string)
    returns (tok: Pointer, next: Pointer, token: Token)
    requires Midway(buf[..], was, start, s, done, delim) && p == To(start + done) && delim != ""
    modifies buf
    ensures done <= |s| && (tok.Null? <==> done == |s|) && (tok.Null? ==> buf[..] == old(buf[..]))
    ensures tok.To? ==>
              var rest := s[done..];
              token == Token(rest[..Cut(rest, delim)], Separator(rest, delim)) &&
              next == To(start + NextAt(rest, done, delim)) &&
              Midway(buf[..], was, start, s, NextAt(rest, done, delim), delim)
  {
    hide StringAt, Terminated, Overwritten, Cut, CutOff, NextAt, Separator;
    ghost var rest := s[done..];
    RestIs(buf[..], was, start, s, done, delim);
    if done < |s| { MoveOn(buf[..], was, start, s, done, delim); }
    NextMoves(rest, start, done, delim);
    var sep;
    tok, next, sep := StrsepRs(buf, p, Some(delim));
    token := Token("", sep);
    if tok.To? {
      var text := TextAt(buf, tok.at);
      token := Token(text, sep);
    }
  }

  /** Calling strsep_rs until it returns NULL: this ends, and cuts the string in place. */
  method Tokenize(buf: array<char>, start: nat, delim: string) returns (tokens: seq<Token>)
    requires Terminated(buf[..], start) && delim != ""
    modifies buf
    ensures var s := old(StringAt(buf[..], start));
            tokens == Split(s, delim) && Join(tokens) == s &&
            Overwritten(buf[..], old(buf[..]), start, start + |s|, delim)
  {
    hide StringAt, Terminated, Midway, Split, Join, Cut, CutOff, NextAt, Separator, Overwritten;
    Begins(buf[..], start, delim);
    ghost var s, was := StringAt(buf[..], start), buf[..];
    var p := To(start);
    ghost var done: nat := 0;
    tokens := [];
    JoinSplit(s, delim);
    assert s[0..] == s;
    while true
      invariant done <= |s| && p == To(start + done) && Midway(buf[..], was, start, s, done, delim)
      invariant tokens + Split(s[done..], delim) == Split(s, delim)
      decreases |s| - done
    {
      var tok, next, token := NextToken(buf, was, start, s, done, p, delim);
      if tok.Null? {
        NoTokens(delim);
        Ends(buf[..], was, start, s, delim);
        return;
      }
      SplitMoves(s, done, delim);
      tokens := tokens + [token];
      done := NextAt(s[done..], done, delim);
      p := next;
    }
  }

  lemma NextMoves(rest: string, start: nat, done: nat, delim: string)
    ensures NextAt(rest, start + done, delim) == start + NextAt(rest, done, delim)
  {
  }

  lemma Begins(b: string, start: nat, delim: string)
    requires Terminated(b, start)
    ensures start <= |b| && Midway(b, b, start, StringAt(b, start), 0, delim) && Clean(StringAt(b, start))
  {
  }

  lemma Ends(b: string, was: string, start: nat, s: string, delim: string)
    requires Midway(b, was, start, s, |s|, delim)
    ensures Overwritten(b, was, start, start + |s|, delim)
  {
  }
}
