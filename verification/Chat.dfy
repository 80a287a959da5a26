/**
 The stream matcher of dev/chat.c, with reporting off: one expected string and several abort strings.
 */
module Chat {
  // --- One pattern ---

  /** Characters of the pattern matched so far, after one more character. */
  function Next(p: string, m: nat, ch: char): (n: nat)
    requires m < |p|
    ensures n <= |p|
  {
    if ch == p[m] then m + 1 else if ch == p[0] then 1 else 0
  }

  /** Characters matched after reading s; a complete match ends the search. */
  function Matched(p: string, s: string): (m: nat)
    requires p != ""
    ensures m <= |p|
    decreases |s|
  {
    if s == "" then 0
    else
      var m := Matched(p, s[..|s| - 1]);
      if m == |p| then m else Next(p, m, s[|s| - 1])
  }

  predicate EndsWith(s: string, t: string) {
    |t| <= |s| && s[|s| - |t|..] == t
  }

  /** The search stops with the last character of s, not earlier. */
  predicate StopsAt(p: string, s: string) {
    p != "" && s != "" && Matched(p, s) == |p| && Matched(p, s[..|s| - 1]) < |p|
  }

  lemma EndsExtend(s: string, p: string, k: nat, ch: char)
    requires 0 < k <= |p|
    ensures EndsWith(s + [ch], p[..k]) <==> EndsWith(s, p[..k - 1]) && ch == p[k - 1]
  {
    var t := s + [ch];
    assert p[..k] == p[..k - 1] + [p[k - 1]];
    if |p[..k]| <= |t| {
      assert t[|t| - k..] == s[|s| - (k - 1)..] + [ch];
    }
  }

  /** What counts as matched has been read: a stop is never wrong. */
  lemma {:induction false} MatchedIsRead(p: string, s: string)
    requires p != "" && (s == "" || Matched(p, s[..|s| - 1]) < |p|)
    ensures EndsWith(s, p[..Matched(p, s)])
    decreases |s|
  {
    hide EndsWith, Matched;
    EndsEmpty(s, p);
    if s == "" {
      NothingMatched(p);
    } else {
      var r, ch := s[..|s| - 1], s[|s| - 1];
      assert s == r + [ch];
      StillSearching(p, r);
      MatchedIsRead(p, r);
      MatchedStep(p, r, ch);
      var m := Matched(p, r);
      if ch == p[m] {
        EndsExtend(r, p, m + 1, ch);
      } else if ch == p[0] {
        EndsEmpty(r, p);
        EndsExtend(r, p, 1, ch);
      }
    }
  }

  lemma NothingMatched(p: string)
    requires p != ""
    ensures Matched(p, "") == 0
  {
  }

  lemma EndsEmpty(s: string, p: string)
    ensures EndsWith(s, p[..0])
  {
  }

  lemma MatchedStep(p: string, r: string, ch: char)
    requires p != ""
    ensures var m := Matched(p, r); Matched(p, r + [ch]) == if m == |p| then m else Next(p, m, ch)
  {
    assert (r + [ch])[..|r|] == r;
  }

  /** Before the end nothing has matched completely. */
  lemma {:induction false} StillSearching(p: string, s: string)
    requires p != "" && Matched(p, s) < |p|
    ensures forall n :: 0 <= n <= |s| ==> Matched(p, s[..n]) < |p|
    decreases |s|
  {
    assert s[..|s|] == s;
    if s != "" {
      var r := s[..|s| - 1];
      StillSearching(p, r);
      forall n | 0 <= n < |s| ensures Matched(p, s[..n]) < |p| { assert s[..n] == r[..n]; }
    }
  }

  lemma {:induction false} StaysMatched(p: string, s: string, n: nat)
    requires p != "" && n <= |s| && Matched(p, s[..n]) == |p|
    ensures Matched(p, s) == |p|
    decreases |s|
  {
    if n == |s| {
      assert s[..n] == s;
    } else {
      assert s[..n] == s[..|s| - 1][..n];
      StaysMatched(p, s[..|s| - 1], n);
    }
  }

  // --- When the first occurrence is found ---

  /** p occurs in s for the first time with the last character. */
  predicate FirstEnds(p: string, s: string) {
    EndsWith(s, p) && forall n :: 0 <= n < |s| ==> !EndsWith(s[..n], p)
  }

  /** The search finds the pattern at its first occurrence, whatever is read. */
  ghost predicate Reliable(p: string)
    requires p != ""
  {
    forall s :: FirstEnds(p, s) ==> StopsAt(p, s)
  }

  /** A prefix of p may end with a shorter prefix only if both go on with the same character. */
  predicate SelfConsistent(p: string) {
    forall m, b :: 0 < b < m < |p| && EndsWith(p[..m], p[..b]) ==> p[b] == p[m]
  }

  lemma SuffixOfSuffix(s: string, t: string, u: string)
    requires EndsWith(s, t) && EndsWith(s, u) && |u| <= |t|
    ensures EndsWith(t, u)
  {
    assert t[|t| - |u|..] == s[|s| - |u|..];
  }

  /** For such a pattern no longer part of it can have been read. */
  lemma {:induction false} MatchedIsLongest(p: string, s: string, k: nat)
    requires p != "" && SelfConsistent(p) && Matched(p, s) < k <= |p|
    ensures !EndsWith(s, p[..k])
    decreases |s|
  {
    hide EndsWith, Matched;
    if s == "" {
      TooLong(p, k);
    } else if EndsWith(s, p[..k]) {
      var r, ch := s[..|s| - 1], s[|s| - 1];
      assert s == r + [ch];
      EndsExtend(r, p, k, ch);
      MatchedStep(p, r, ch);
      var m := Matched(p, r);
      if k - 1 > m {
        MatchedIsLongest(p, r, k - 1);
      } else if 0 < k - 1 < m {
        Shorter(p, r, ch, k - 1);
      }
    }
  }

  lemma TooLong(p: string, k: nat)
    requires 0 < k <= |p|
    ensures !EndsWith("", p[..k])
  {
  }

  /** A shorter part that goes on with ch is part of a longer one that does so, too. */
  lemma Shorter(p: string, r: string, ch: char, b: nat)
    requires p != "" && SelfConsistent(p) && 0 < b < Matched(p, r) < |p| && EndsWith(r, p[..b])
    ensures p[b] == p[Matched(p, r)]
  {
    hide EndsWith, Matched;
    var m := Matched(p, r);
    StillSearching(p, r);
    if r == "" { NothingMatched(p); }
    MatchedIsRead(p, r);
    SuffixOfSuffix(r, p[..m], p[..b]);
  }

  lemma ReliableIfConsistent(p: string, s: string)
    requires p != "" && SelfConsistent(p) && FirstEnds(p, s)
    ensures StopsAt(p, s)
  {
    assert p[..|p|] == p;
    if Matched(p, s) < |p| {
      MatchedIsLongest(p, s, |p|);
    }
    if Matched(p, s[..|s| - 1]) == |p| { StoppedBefore(p, s); }
  }

  lemma StoppedBefore(p: string, s: string)
    requires p != "" && s != "" && Matched(p, s[..|s| - 1]) == |p|
    ensures !FirstEnds(p, s)
  {
    var r := s[..|s| - 1];
    StoppedEarlier(p, r);
    var n :| 0 <= n <= |r| && EndsWith(r[..n], p);
    assert r[..n] == s[..n];
  }

  /** A completed search has stopped at an occurrence. */
  lemma {:induction false} StoppedEarlier(p: string, s: string)
    requires p != "" && Matched(p, s) == |p|
    ensures exists n :: 0 <= n <= |s| && EndsWith(s[..n], p)
    decreases |s|
  {
    var r := s[..|s| - 1];
    if Matched(p, r) == |p| {
      StoppedEarlier(p, r);
      var n :| 0 <= n <= |r| && EndsWith(r[..n], p);
      assert r[..n] == s[..n];
    } else {
      MatchedIsRead(p, s);
      assert p[..|p|] == p && s[..|s|] == s;
    }
  }

  /** The search gains at most one character at a time. */
  lemma {:induction false} GainsSlowly(p: string, s: string, t: string)
    requires p != ""
    ensures Matched(p, s + t) <= Matched(p, s) + |t|
    decreases |t|
  {
    if t == "" {
      assert s + t == s;
    } else {
      assert (s + t)[..|s + t| - 1] == s + t[..|t| - 1];
      GainsSlowly(p, s, t[..|t| - 1]);
    }
  }

  lemma {:induction false} PrefixMatches(p: string, m: nat)
    requires m <= |p| && p != ""
    ensures Matched(p, p[..m]) == m
    decreases m
  {
    if m > 0 {
      PrefixMatches(p, m - 1);
      assert p[..m][..m - 1] == p[..m - 1];
    }
  }

  /** Where a prefix of length m goes on differently than its own end of length b, the search misses this input. */
  function Missed(p: string, m: nat, b: nat): string
    requires b < m < |p|
  {
    p[..m] + p[b..]
  }

  lemma MissedOccurs(p: string, m: nat, b: nat)
    requires 0 < b < m < |p| && EndsWith(p[..m], p[..b])
    ensures EndsWith(Missed(p, m, b), p)
  {
    var s := Missed(p, m, b);
    assert p[..m] == p[..m - b] + p[..b];
    assert p == p[..b] + p[b..];
    assert s == p[..m - b] + p;
  }

  lemma MissedUnmatched(p: string, m: nat, b: nat)
    requires 0 < b < m < |p| && p[b] != p[m]
    ensures Matched(p, Missed(p, m, b)) < |p|
  {
    var head, tail := p[..m] + [p[b]], p[b + 1..];
    PrefixMatches(p, m);
    assert head[..|head| - 1] == p[..m];
    assert Matched(p, head) <= 1;
    assert p[b..] == [p[b]] + tail;
    assert Missed(p, m, b) == head + tail;
    GainsSlowly(p, head, tail);
  }

  /** Reading on, some shortest part of s ends with p. */
  lemma {:induction false} FirstExists(p: string, s: string)
    requires EndsWith(s, p)
    ensures exists n :: 0 <= n <= |s| && FirstEnds(p, s[..n])
    decreases |s|
  {
    if exists n :: 0 <= n < |s| && EndsWith(s[..n], p) {
      var n :| 0 <= n < |s| && EndsWith(s[..n], p);
      FirstExists(p, s[..n]);
      var k :| 0 <= k <= n && FirstEnds(p, s[..n][..k]);
      assert s[..n][..k] == s[..k];
    } else {
      assert s[..|s|] == s;
    }
  }

  /** The search finds every first occurrence if and only if the pattern is consistent with itself. */
  lemma ReliableIff(p: string)
    requires p != ""
    ensures Reliable(p) <==> SelfConsistent(p)
  {
    if SelfConsistent(p) {
      forall s | FirstEnds(p, s) ensures StopsAt(p, s) { ReliableIfConsistent(p, s); }
    } else {
      var m, b :| 0 < b < m < |p| && EndsWith(p[..m], p[..b]) && p[b] != p[m];
      var s := Missed(p, m, b);
      MissedOccurs(p, m, b);
      MissedUnmatched(p, m, b);
      FirstExists(p, s);
      var n :| 0 <= n <= |s| && FirstEnds(p, s[..n]);
      StillSearching(p, s);
      assert !StopsAt(p, s[..n]);
    }
  }

  /** Enough for that: the first character does not come again. */
  lemma NoRecurrenceSuffices(p: string)
    requires p != "" && forall i :: 0 < i < |p| ==> p[i] != p[0]
    ensures SelfConsistent(p)
  {
    forall m, b | 0 < b < m < |p| ensures !EndsWith(p[..m], p[..b]) {
      if EndsWith(p[..m], p[..b]) { EndRepeatsFirst(p, m, b); }
    }
  }

  lemma EndRepeatsFirst(p: string, m: nat, b: nat)
    requires 0 < b < m <= |p| && EndsWith(p[..m], p[..b])
    ensures p[m - b] == p[0]
  {
    assert p[..m][m - b..][0] == p[..b][0];
  }

  /** The pattern aab is missed in aaab. */
  lemma MissesAab()
    ensures EndsWith("aaab", "aab") && Matched("aab", "aaab") == 0 && !Reliable("aab")
  {
    var p := "aab";
    assert "a"[..0] == "" && "aa"[..1] == "a" && "aaa"[..2] == "aa" && "aaab"[..3] == "aaa";
    assert Matched(p, "a") == 1 && Matched(p, "aa") == 2 && Matched(p, "aaa") == 1;
    assert p[..2] == "aa" && p[..1] == "a" && p[1] != p[2];
    assert EndsWith(p[..2], p[..1]);
    ReliableIff(p);
  }

  // --- The session: one expected string at a time, all abort strings ---

  const ABORTS := 4
  const TIMEOUT := 3

  /** The patterns NutChat accepts, with a match index of eight bits. */
  predicate Patterns(aborts: seq<string>) {
    |aborts| <= 10 && forall i :: 0 <= i < |aborts| ==> 0 < |aborts[i]| < 256
  }

  /** Each index is what has been matched of its abort string in the whole session. */
  predicate InStep(aborts: seq<string>, abomat: seq<nat>, session: string) {
    Patterns(aborts) && |abomat| == |aborts| &&
    forall i :: 0 <= i < |aborts| ==> abomat[i] == Matched(aborts[i], session) < |aborts[i]|
  }

  class NutChat {
    const chat_abort: seq<string>
    var chat_abomat: seq<nat>
    /** Everything read so far. */
    ghost var session: string

    ghost predicate Valid()
      reads this
    {
      InStep(chat_abort, chat_abomat, session)
    }

    constructor (aborts: seq<string>)
      requires Patterns(aborts)
      ensures Valid() && chat_abort == aborts && session == ""
    {
      chat_abort := aborts;
      chat_abomat := seq(|aborts|, _ => 0);
      session := "";
    }

    /** The loop over the abort strings for one character; 0 if none is complete. */
    method CheckAborts(ch: char) returns (rc: nat)
      requires Valid()
      modifies this
      ensures session == old(session) + [ch]
      ensures rc == 0 ==> Valid()
      ensures rc != 0 ==> ABORTS <= rc < ABORTS + |chat_abort| && StopsAt(chat_abort[rc - ABORTS], session) &&
                          forall i :: 0 <= i < rc - ABORTS ==> !StopsAt(chat_abort[i], session)
    {
      hide Patterns, Next;
      ghost var was, s := chat_abomat, session;
      session := session + [ch];
      assert session[..|session| - 1] == s;
      var i := 0;
      while i < |chat_abort|
        invariant i <= |chat_abort| == |chat_abomat| && session == s + [ch] && session[..|session| - 1] == s
        invariant forall k :: i <= k < |chat_abort| ==> chat_abomat[k] == was[k]
        invariant forall k :: 0 <= k < i ==>
                    chat_abort[k] != "" && chat_abomat[k] == Matched(chat_abort[k], session) < |chat_abort[k]|
      {
        NonEmpty(i);
        NextIs(chat_abort[i], chat_abomat[i], ch);
        var m := chat_abomat[i];
        if ch == chat_abort[i][m] {
          m := m + 1;
          if m == |chat_abort[i]| {
            return i + ABORTS;
          }
        } else {
          m := if ch == chat_abort[i][0] then 1 else 0;
        }
        chat_abomat := chat_abomat[i := m];
        i := i + 1;
      }
      rc := 0;
    }

    lemma NonEmpty(i: nat)
      requires Patterns(chat_abort) && i < |chat_abort|
      ensures 0 < |chat_abort[i]| < 256
    {
    }

    lemma NextIs(p: string, m: nat, ch: char)
      requires m < |p|
      ensures Next(p, m, ch) == if ch == p[m] then m + 1 else if ch == p[0] then 1 else 0
    {
    }

    /**
     NutChatExpectString on what arrives before the next timeout. The result 0 means the characters just read
     end with the expected string and no abort string is complete; i + 4 that abort string i, and no earlier
     one, is complete in the session.
     */
    method ExpectString(str: string, arriving: string) returns (rc: nat, ghost n: nat)
      requires Valid()
      modifies this
      ensures n <= |arriving| && session == old(session) + arriving[..n]
      ensures rc < ABORTS ==> Valid() && (rc == 0 || rc == TIMEOUT)
      ensures rc == 0 ==> if str == "" then n == 0 else StopsAt(str, arriving[..n]) && EndsWith(arriving[..n], str)
      ensures rc == TIMEOUT ==> n == |arriving| && str != "" && Matched(str, arriving) < |str|
      ensures rc >= ABORTS ==> rc < ABORTS + |chat_abort| && StopsAt(chat_abort[rc - ABORTS], session) &&
                               EndsWith(session, chat_abort[rc - ABORTS])
    {
      hide Matched, EndsWith, StopsAt, InStep;
      var cp, pos := 0, 0;
      n := 0;
      assert arriving[..0] == "";
      Unread(str);
      while cp < |str|
        invariant n == pos <= |arriving| && session == old(session) + arriving[..pos] && Valid() && cp <= |str|
        invariant str != "" ==> cp == Matched(str, arriving[..pos])
        invariant cp == |str| && str != "" ==> StopsAt(str, arriving[..pos])
        invariant str == "" ==> pos == 0
        decreases |arriving| - pos
      {
        if pos == |arriving| {
          assert arriving[..pos] == arriving;
          return TIMEOUT, pos;
        }
        var ch := arriving[pos];
        OneMore(str, arriving, pos);
        if ch != str[cp] { cp := 0; }
        if ch == str[cp] { cp := cp + 1; }
        pos := pos + 1;
        n := pos;
        assert old(session) + arriving[..pos] == old(session) + arriving[..pos - 1] + [ch];
        rc := CheckAborts(ch);
        if rc != 0 {
          NonEmptyAbort(rc - ABORTS);
          StopIsOccurrence(chat_abort[rc - ABORTS], session);
          return rc, pos;
        }
      }
      if str != "" { StopIsOccurrence(str, arriving[..pos]); }
      rc := 0;
    }

    lemma Unread(str: string)
      ensures str != "" ==> Matched(str, "") == 0
    {
    }

    lemma NonEmptyAbort(i: nat)
      requires i < |chat_abort| && StopsAt(chat_abort[i], session)
      ensures chat_abort[i] != ""
    {
    }

    lemma OneMore(str: string, arriving: string, pos: nat)
      requires str != "" && pos < |arriving| && Matched(str, arriving[..pos]) < |str|
      ensures var m := Matched(str, arriving[..pos]);
              Matched(str, arriving[..pos + 1]) == Next(str, m, arriving[pos]) &&
              (Next(str, m, arriving[pos]) == |str| ==> StopsAt(str, arriving[..pos + 1]))
    {
      assert arriving[..pos + 1][..pos] == arriving[..pos];
    }

    lemma StopIsOccurrence(p: string, s: string)
      requires p != "" && StopsAt(p, s)
      ensures EndsWith(s, p)
    {
      MatchedIsRead(p, s);
      assert p[..|p|] == p;
    }
  }
}
