// c_strmatch: the test and skip filters.
module Glob {
  import opened Wrappers

  /** The glob language: '?' is any one character, '*' any run of characters. */
  ghost predicate Matches(s: string, p: string)
    decreases |p|
  {
    if p == "" then s == ""
    else if p[0] == '*' then exists k :: 0 <= k <= |s| && Matches(s[k..], p[1..])
    else s != "" && (p[0] == '?' || p[0] == s[0]) && Matches(s[1..], p[1..])
  }

  /** The language, by its laws: one character, "?" and "*", and what a pattern made of two parts matches. */
  lemma MatchesLetter(s: string, c: char)
    ensures c != '*' && c != '?' ==> (Matches(s, [c]) <==> s == [c])
    ensures Matches(s, "?") <==> |s| == 1
    ensures Matches(s, "*") && (Matches(s, "") <==> s == "")
  {
    MatchesNothing(s);
    MatchesNothing(s[|s|..]);
    MatchesOne(s, c);
    MatchesOne(s, '?');
    assert s != "" ==> s == [s[0]] + s[1..];
    assert "*"[1..] == "";
  }

  lemma MatchesNothing(s: string)
    ensures Matches(s, "") <==> s == ""
  {
  }

  lemma MatchesOne(s: string, c: char)
    ensures c != '*' ==> (Matches(s, [c]) <==> s != "" && (c == '?' || c == s[0]) && s[1..] == "")
  {
    if s != "" {
      assert [c][1..] == "";
      MatchesNothing(s[1..]);
    }
  }

  lemma {:induction false} MatchesConcat(s: string, p: string, q: string)
    ensures Matches(s, p + q) <==> exists i :: 0 <= i <= |s| && Matches(s[..i], p) && Matches(s[i..], q)
    decreases |p|
  {
    if p == "" {
      assert p + q == q && s[..0] == "" && s[0..] == s;
      if i :| 0 <= i <= |s| && Matches(s[..i], p) && Matches(s[i..], q) {
        assert i == 0;
      }
    } else {
      assert (p + q)[0] == p[0] && (p + q)[1..] == p[1..] + q;
      if p[0] == '*' {
        ConcatStar(s, p, q);
      } else {
        ConcatLetter(s, p, q);
      }
    }
  }

  lemma {:induction false} ConcatLetter(s: string, p: string, q: string)
    requires p != "" && p[0] != '*' && (p + q)[0] == p[0] && (p + q)[1..] == p[1..] + q
    ensures Matches(s, p + q) <==> exists i :: 0 <= i <= |s| && Matches(s[..i], p) && Matches(s[i..], q)
    decreases |p|, 0
  {
    if s != "" {
      var t := s[1..];
      MatchesConcat(t, p[1..], q);
      if i :| 0 <= i <= |t| && Matches(t[..i], p[1..]) && Matches(t[i..], q) {
        assert s[..i + 1][1..] == t[..i] && s[i + 1..] == t[i..] && s[..i + 1][0] == s[0];
        assert p[0] == '?' || p[0] == s[0] ==> Matches(s[..i + 1], p);
      }
      if i :| 0 <= i <= |s| && Matches(s[..i], p) && Matches(s[i..], q) {
        assert i > 0 && s[..i][1..] == t[..i - 1] && s[i..] == t[i - 1..] && s[..i][0] == s[0];
      }
    }
  }

  lemma {:induction false} ConcatStar(s: string, p: string, q: string)
    requires p != "" && p[0] == '*' && (p + q)[0] == p[0] && (p + q)[1..] == p[1..] + q
    ensures Matches(s, p + q) <==> exists i :: 0 <= i <= |s| && Matches(s[..i], p) && Matches(s[i..], q)
    decreases |p|, 0
  {
    if k :| 0 <= k <= |s| && Matches(s[k..], p[1..] + q) {
      MatchesConcat(s[k..], p[1..], q);
      var i :| 0 <= i <= |s| - k && Matches(s[k..][..i], p[1..]) && Matches(s[k..][i..], q);
      assert s[..k + i][k..] == s[k..][..i] && s[k + i..] == s[k..][i..];
      assert Matches(s[..k + i], p);
    }
    if i :| 0 <= i <= |s| && Matches(s[..i], p) && Matches(s[i..], q) {
      var k :| 0 <= k <= i && Matches(s[..i][k..], p[1..]);
      MatchesConcat(s[k..], p[1..], q);
      assert s[k..][..i - k] == s[..i][k..] && s[k..][i - k..] == s[i..];
    }
  }

  /** A pattern without stars and question marks matches itself only, and is read as it is. */
  predicate Literal(p: string) {
    forall i :: 0 <= i < |p| ==> p[i] != '*' && p[i] != '?'
  }

  lemma {:induction false} LiteralMatches(s: string, p: string)
    requires Literal(p)
    ensures Matches(s, p) <==> s == p
    decreases |p|
  {
    if p != "" && s != "" {
      LiteralMatches(s[1..], p[1..]);
      assert s == [s[0]] + s[1..] && p == [p[0]] + p[1..];
    }
  }

  lemma {:induction false} LiteralAsRead(p: string)
    requires Literal(p)
    ensures AsRead(p) == p
    decreases |p|
  {
    if p != "" {
      LiteralAsRead(p[1..]);
      assert p[0] != '*';
    }
  }

  predicate AllStars(p: string) {
    forall i :: 0 <= i < |p| ==> p[i] == '*'
  }

  /** The pattern as the code reads it: a trailing run of two or more stars counts as "?*". */
  function AsRead(p: string): string {
    if AllStars(p) then (if |p| >= 2 then "?*" else p) else [p[0]] + AsRead(p[1..])
  }

  /** The length of the trailing run of stars. */
  function Tail(p: string): (n: nat)
    ensures n <= |p| && (n == |p| <==> AllStars(p))
  {
    if AllStars(p) then |p| else Tail(p[1..])
  }

  lemma {:induction false} TailIsRun(p: string)
    ensures AllStars(p[|p| - Tail(p)..]) && (Tail(p) < |p| ==> p[|p| - Tail(p) - 1] != '*')
    decreases |p|
  {
    if AllStars(p) {
      assert p[0..] == p;
    } else {
      var n, rest := Tail(p), p[1..];
      TailIsRun(rest);
      assert p[|p| - n..] == rest[|rest| - n..];
      if n == |rest| {
        assert p == [p[0]] + rest;
      }
    }
  }

  lemma {:induction false} AsReadMeaning(p: string)
    ensures AsRead(p) == if Tail(p) >= 2 then p[..|p| - Tail(p)] + "?*" else p
    decreases |p|
  {
    if AllStars(p) {
      assert p[..0] + "?*" == "?*";
    } else {
      AsReadMeaning(p[1..]);
      hide AllStars;
      StepAsRead(p, Tail(p));
    }
  }

  lemma StepAsRead(p: string, n: nat)
    requires p != "" && n < |p|
    ensures [p[0]] + (p[1..][..|p| - 1 - n] + "?*") == p[..|p| - n] + "?*" && [p[0]] + p[1..] == p
  {
    assert p[..|p| - n] == [p[0]] + p[1..][..|p| - 1 - n];
  }

  // ---- What the code computes

  ghost predicate CodeMatches(s: string, p: string)
    decreases |p|
  {
    if p == "" then s == ""
    else if p[0] == '*' then p[1..] == "" || exists k :: 0 <= k < |s| && CodeMatches(s[k..], p[1..])
    else s != "" && (p[0] == '?' || p[0] == s[0]) && CodeMatches(s[1..], p[1..])
  }

  lemma {:induction false} EmptyMatches(p: string)
    ensures Matches("", p) <==> AllStars(p)
    decreases |p|
  {
    if p != "" {
      EmptyMatches(p[1..]);
      assert p == [p[0]] + p[1..];
      if p[0] == '*' {
        assert ""[0..] == "";
      }
    }
  }

  lemma {:induction false} AsReadStars(p: string)
    requires !AllStars(p)
    ensures !AllStars(AsRead(p))
    decreases |p|
  {
    if p[0] == '*' {
      assert p == [p[0]] + p[1..];
      AsReadStars(p[1..]);
      assert AsRead(p)[1..] == AsRead(p[1..]);
    }
  }

  lemma AnyMatches(s: string)
    ensures Matches(s, "*") && (Matches(s, "?*") <==> s != "")
  {
    assert "*"[1..] == "" && s[|s|..] == "";
    if s != "" {
      assert "?*"[1..] == "*";
      assert s[1..][|s[1..]|..] == "";
    }
  }

  /** The code accepts the glob language of the pattern as it reads it. */
  lemma {:induction false} CodeIsGlob(s: string, p: string)
    ensures CodeMatches(s, p) <==> Matches(s, AsRead(p))
    decreases |p|
  {
    if p == "" {
    } else if p[0] != '*' {
      assert AsRead(p) == [p[0]] + AsRead(p[1..]);
      assert AsRead(p)[1..] == AsRead(p[1..]);
      if s != "" {
        CodeIsGlob(s[1..], p[1..]);
      }
    } else if p[1..] == "" {
      assert p == "*";
      AnyMatches(s);
    } else {
      StarIsGlob(s, p);
    }
  }

  lemma {:induction false} StarIsGlob(s: string, p: string)
    requires |p| >= 2 && p[0] == '*'
    ensures CodeMatches(s, p) <==> Matches(s, AsRead(p))
    decreases |p|, 0
  {
    var rest := p[1..];
    assert p == [p[0]] + rest;
    forall k | 0 <= k < |s| ensures CodeMatches(s[k..], rest) <==> Matches(s[k..], AsRead(rest)) {
      CodeIsGlob(s[k..], rest);
    }
    if AllStars(rest) {
      AnyMatches(s);
      forall k | 0 <= k < |s| ensures Matches(s[k..], AsRead(rest)) {
        AnyMatches(s[k..]);
        assert |rest| == 1 ==> rest == "*";
      }
      if s != "" { assert CodeMatches(s[0..], rest); }
    } else {
      AsReadStars(rest);
      EmptyMatches(AsRead(rest));
      assert s[|s|..] == "";
      assert AsRead(p)[1..] == AsRead(rest);
    }
  }

  // ---- Where the code and the glob language agree

  /** The number of characters of a pattern that are not stars: what it matches is at least as long. */
  function Length(p: string): nat {
    if p == "" then 0 else (if p[0] == '*' then 0 else 1) + Length(p[1..])
  }

  lemma {:induction false} MatchesAreLong(s: string, p: string)
    requires Matches(s, p)
    ensures |s| >= Length(p)
    decreases |p|
  {
    if p != "" {
      if p[0] == '*' {
        var k :| 0 <= k <= |s| && Matches(s[k..], p[1..]);
        MatchesAreLong(s[k..], p[1..]);
      } else {
        MatchesAreLong(s[1..], p[1..]);
      }
    }
  }

  /** The shortest match: the pattern without its stars. */
  function Shortest(p: string): (s: string)
    ensures |s| == Length(p)
  {
    if p == "" then "" else (if p[0] == '*' then "" else [p[0]]) + Shortest(p[1..])
  }

  lemma {:induction false} ShortestMatches(p: string)
    ensures Matches(Shortest(p), p)
    decreases |p|
  {
    if p != "" {
      ShortestMatches(p[1..]);
      var s := Shortest(p);
      if p[0] == '*' {
        assert s[0..] == Shortest(p[1..]);
      } else {
        assert s[1..] == Shortest(p[1..]);
      }
    }
  }

  /** A trailing run of two or more stars, read as "?*", asks for one character more. */
  lemma {:induction false} AsReadIsLonger(p: string)
    requires Tail(p) >= 2
    ensures Length(AsRead(p)) == Length(p) + 1
    decreases |p|
  {
    if AllStars(p) {
      StarsHaveNoLength(p);
      assert "?*"[1..] == "*" && "*"[1..] == "";
    } else {
      AsReadIsLonger(p[1..]);
      assert AsRead(p)[1..] == AsRead(p[1..]);
    }
  }

  lemma {:induction false} StarsHaveNoLength(p: string)
    requires AllStars(p)
    ensures Length(p) == 0
    decreases |p|
  {
    if p != "" { StarsHaveNoLength(p[1..]); }
  }

  /** The code decides the documented glob language exactly for the patterns that do not end in two or
      more stars; for any other pattern it rejects the shortest match. */
  lemma AgreesExactly(p: string)
    ensures (forall s: string :: CodeMatches(s, p) <==> Matches(s, p)) <==> Tail(p) < 2
    ensures Tail(p) >= 2 ==> Matches(Shortest(p), p) && !CodeMatches(Shortest(p), p)
  {
    hide Matches, CodeMatches, AllStars;
    if Tail(p) < 2 {
      AsReadMeaning(p);
      forall s: string ensures CodeMatches(s, p) <==> Matches(s, p) {
        CodeIsGlob(s, p);
      }
    } else {
      ShortestMatches(p);
      AsReadIsLonger(p);
      CodeIsGlob(Shortest(p), p);
      if Matches(Shortest(p), AsRead(p)) {
        MatchesAreLong(Shortest(p), AsRead(p));
      }
    }
  }

  // ---- The code

  /** What the code computes from two positions on, in terms of the positions behind them. */
  lemma CodeAt(s: string, i: nat, p: string, j: nat)
    requires i <= |s| && j <= |p|
    ensures j == |p| ==> (CodeMatches(s[i..], p[j..]) <==> i == |s|)
    ensures j < |p| && p[j] == '*' ==>
              (CodeMatches(s[i..], p[j..]) <==>
               j + 1 == |p| || exists k :: i <= k < |s| && CodeMatches(s[k..], p[j + 1..]))
    ensures j < |p| && p[j] != '*' ==>
              (CodeMatches(s[i..], p[j..]) <==>
               i < |s| && (p[j] == '?' || s[i] == p[j]) && CodeMatches(s[i + 1..], p[j + 1..]))
  {
    var t := s[i..];
    assert j < |p| ==> p[j..][1..] == p[j + 1..];
    assert i < |s| ==> t[1..] == s[i + 1..];
    if j < |p| && p[j] == '*' {
      assert forall k :: 0 <= k < |t| ==> t[k..] == s[i + k..];
      assert forall k :: i <= k < |s| ==> s[k..] == t[k - i..];
    }
  }

  /** c_strmatch from positions i and j on. */
  method StrMatch(s: string, i0: nat, p: string, j0: nat) returns (ok: bool)
    requires i0 <= |s| && j0 <= |p|
    ensures ok == CodeMatches(s[i0..], p[j0..])
    decreases |p| - j0
  {
    hide *;
    var i, j := i0, j0;
    while true
      invariant i0 <= i <= |s| && j0 <= j <= |p|
      invariant CodeMatches(s[i..], p[j..]) == CodeMatches(s[i0..], p[j0..])
      decreases |p| - j
    {
      CodeAt(s, i, p, j);
      if j == |p| {
        return i == |s|;
      }
      if p[j] == '*' {
        j := j + 1;
        if j == |p| {
          return true;
        }
        ghost var i1 := i;
        while i < |s|
          invariant i1 <= i <= |s|
          invariant forall k :: i1 <= k < i ==> !CodeMatches(s[k..], p[j..])
        {
          ok := StrMatch(s, i, p, j);
          if ok {
            return true;
          }
          i := i + 1;
        }
        return false;
      }
      if i == |s| {
        return false;
      }
      if p[j] != '?' && s[i] != p[j] {
        return false;
      }
      i := i + 1;
      j := j + 1;
    }
  }

  /** c_strmatch; null arguments match nothing. */
  method CStrMatch(str: Option<string>, pattern: Option<string>) returns (ok: bool)
    ensures ok == (str.Some? && pattern.Some? && Matches(str.value, AsRead(pattern.value)))
    ensures str.Some? && pattern.Some? && Tail(pattern.value) < 2 ==> ok == Matches(str.value, pattern.value)
  {
    if str.None? || pattern.None? {
      return false;
    }
    var s, p := str.value, pattern.value;
    ok := StrMatch(s, 0, p, 0);
    assert s[0..] == s && p[0..] == p;
    CodeIsGlob(s, p);
    AsReadMeaning(p);
  }
}
