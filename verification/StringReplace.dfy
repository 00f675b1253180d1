// c_strreplace: replacing a pattern inside a bounded, NUL-terminated buffer, in place.
module StringReplace {
  import opened Wrappers

  const NUL: char := '\0'

  /** strstr's null result. */
  const NONE: int := -1

  // ---- Strings in buffers

  /** s is the string in the first size places of the buffer: what comes before the first NUL. */
  ghost predicate Holds(a: array<char>, size: nat, s: seq<char>)
    reads a
  {
    && |s| < size <= a.Length
    && (forall i :: 0 <= i < |s| ==> a[i] == s[i] && s[i] != NUL)
    && a[|s|] == NUL
  }

  // ---- Occurrences and substitution on values

  predicate OccursAt(s: seq<char>, pat: seq<char>, i: nat) {
    i + |pat| <= |s| && s[i..i + |pat|] == pat
  }

  /** The leftmost occurrence at or after i. */
  function FindFrom(s: seq<char>, pat: seq<char>, i: nat): (r: int)
    requires i <= |s|
    ensures r == NONE || (i <= r && OccursAt(s, pat, r))
    decreases |s| - i
  {
    if OccursAt(s, pat, i) then i else if i == |s| then NONE else FindFrom(s, pat, i + 1)
  }

  lemma {:induction false} FindLeftmost(s: seq<char>, pat: seq<char>, i: nat, j: nat)
    requires pat != [] && i <= j && i <= |s| && OccursAt(s, pat, j)
    ensures i <= FindFrom(s, pat, i) <= j
    decreases |s| - i
  {
    if !OccursAt(s, pat, i) { FindLeftmost(s, pat, i + 1, j); }
  }

  /** s with its first k leftmost, non-overlapping occurrences of pat replaced. Only s is searched,
      never what was put in. */
  function Subst(s: seq<char>, pat: seq<char>, repl: seq<char>, k: nat): seq<char>
    requires pat != []
    decreases k
  {
    var i := FindFrom(s, pat, 0);
    if k == 0 || i == NONE then s
    else s[..i] + repl + Subst(s[i + |pat|..], pat, repl, k - 1)
  }

  /** The number of leftmost, non-overlapping occurrences. */
  function Occurrences(s: seq<char>, pat: seq<char>): nat
    requires pat != []
    decreases |s|
  {
    var i := FindFrom(s, pat, 0);
    if i == NONE then 0 else 1 + Occurrences(s[i + |pat|..], pat)
  }

  function Max(a: int, b: int): int { if a < b then b else a }

  lemma {:induction false} SubstLength(s: seq<char>, pat: seq<char>, repl: seq<char>, k: nat)
    requires pat != [] && k <= Occurrences(s, pat)
    ensures |Subst(s, pat, repl, k)| == |s| + k * (|repl| - |pat|)
    decreases k
  {
    var i := FindFrom(s, pat, 0);
    if k > 0 {
      var rest, d := s[i + |pat|..], |repl| - |pat|;
      SubstLength(rest, pat, repl, k - 1);
      assert Subst(s, pat, repl, k) == s[..i] + repl + Subst(rest, pat, repl, k - 1);
      assert k * d == (k - 1) * d + d;
    }
  }

  /** Searching behind a prefix. */
  lemma {:induction false} FindBehind(done: seq<char>, rest: seq<char>, pat: seq<char>, i: nat)
    requires i <= |rest|
    ensures var r := FindFrom(rest, pat, i);
            FindFrom(done + rest, pat, |done| + i) == if r == NONE then NONE else |done| + r
    decreases |rest| - i
  {
    OccursBehind(done, rest, pat, i);
    hide OccursAt;
    if !OccursAt(rest, pat, i) && i < |rest| {
      FindBehind(done, rest, pat, i + 1);
    }
  }

  lemma OccursBehind(done: seq<char>, rest: seq<char>, pat: seq<char>, i: nat)
    ensures OccursAt(done + rest, pat, |done| + i) <==> OccursAt(rest, pat, i)
  {
    if i + |pat| <= |rest| {
      assert (done + rest)[|done| + i..|done| + i + |pat|] == rest[i..i + |pat|];
    }
  }

  /** After k replacements the string is done + rest, where rest is the part of s not yet searched. */
  ghost predicate Split(s: seq<char>, pat: seq<char>, repl: seq<char>, k: nat, done: seq<char>, rest: seq<char>)
    requires pat != []
  {
    && k + Occurrences(rest, pat) == Occurrences(s, pat)
    && forall j: nat {:trigger Subst(rest, pat, repl, j)} ::
         Subst(s, pat, repl, k + j) == done + Subst(rest, pat, repl, j)
  }

  lemma SplitStart(s: seq<char>, pat: seq<char>, repl: seq<char>)
    requires pat != []
    ensures Split(s, pat, repl, 0, [], s)
  {
    forall j: nat ensures Subst(s, pat, repl, 0 + j) == [] + Subst(s, pat, repl, j) {
    }
  }

  lemma SplitNow(s: seq<char>, pat: seq<char>, repl: seq<char>, k: nat, done: seq<char>, rest: seq<char>)
    requires pat != [] && Split(s, pat, repl, k, done, rest)
    ensures Subst(s, pat, repl, k) == done + rest
    ensures k <= Occurrences(s, pat) && (k == Occurrences(s, pat) <==> FindFrom(rest, pat, 0) == NONE)
  {
    assert Subst(rest, pat, repl, 0) == rest;
    assert Subst(s, pat, repl, k + 0) == done + rest;
  }

  lemma SplitStep(s: seq<char>, pat: seq<char>, repl: seq<char>, k: nat, done: seq<char>, rest: seq<char>, i: nat,
                  rest': seq<char>)
    requires pat != [] && Split(s, pat, repl, k, done, rest) && FindFrom(rest, pat, 0) == i && i + |pat| <= |rest|
    requires rest' == rest[i + |pat|..]
    ensures Split(s, pat, repl, k + 1, done + rest[..i] + repl, rest')
  {
    hide Subst, FindFrom, OccursAt;
    forall j: nat ensures Subst(s, pat, repl, k + 1 + j) == done + rest[..i] + repl + Subst(rest', pat, repl, j) {
      SplitAt(s, pat, repl, k, done, rest, 1 + j);
      SubstStep(rest, pat, repl, i, rest', j);
      JoinParts(done, rest[..i], repl, Subst(rest', pat, repl, j));
    }
  }

  lemma SplitAt(s: seq<char>, pat: seq<char>, repl: seq<char>, k: nat, done: seq<char>, rest: seq<char>, j: nat)
    requires pat != [] && Split(s, pat, repl, k, done, rest)
    ensures Subst(s, pat, repl, k + j) == done + Subst(rest, pat, repl, j)
  {
  }

  lemma JoinParts(a: seq<char>, b: seq<char>, c: seq<char>, d: seq<char>)
    ensures a + (b + c + d) == a + b + c + d
  {
  }

  lemma SubstStep(rest: seq<char>, pat: seq<char>, repl: seq<char>, i: nat, rest': seq<char>, j: nat)
    requires pat != [] && FindFrom(rest, pat, 0) == i && rest' == rest[i + |pat|..]
    ensures Subst(rest, pat, repl, 1 + j) == rest[..i] + repl + Subst(rest', pat, repl, j)
  {
  }

  lemma SplitJoin(done: seq<char>, rest: seq<char>, i: nat, n: nat, repl: seq<char>)
    requires i + n <= |rest|
    ensures (done + rest)[..|done| + i] + repl + (done + rest)[|done| + i + n..] ==
            (done + rest[..i] + repl) + rest[i + n..]
  {
    assert (done + rest)[..|done| + i] == done + rest[..i];
    assert (done + rest)[|done| + i + n..] == rest[i + n..];
  }

  /** The search behind what is done fails exactly when all occurrences are replaced. */
  lemma SearchEnd(s: seq<char>, pat: seq<char>, repl: seq<char>, k: nat, done: seq<char>, rest: seq<char>)
    requires pat != [] && Split(s, pat, repl, k, done, rest)
    ensures k <= Occurrences(s, pat) && |done| <= |Subst(s, pat, repl, k)|
    ensures k == Occurrences(s, pat) <==> FindFrom(Subst(s, pat, repl, k), pat, |done|) == NONE
    ensures k == 0 ==> Subst(s, pat, repl, k) == s
  {
    SplitNow(s, pat, repl, k, done, rest);
    FindBehind(done, rest, pat, 0);
  }

  // ---- The C library calls

  lemma OccursPointwise(s: seq<char>, pat: seq<char>, i: nat)
    ensures OccursAt(s, pat, i) <==> i + |pat| <= |s| && forall k :: 0 <= k < |pat| ==> s[i + k] == pat[k]
  {
    assert i + |pat| <= |s| ==> forall k {:trigger s[i..i + |pat|][k]} :: 0 <= k < |pat| ==>
           s[i..i + |pat|][k] == s[i + k];
  }

  method MatchAt(a: array<char>, i: nat, ghost size: nat, ghost s: seq<char>, pat: seq<char>) returns (b: bool)
    requires i <= |s| && Holds(a, size, s) && NUL !in pat
    ensures b == OccursAt(s, pat, i)
  {
    var j := 0;
    while j < |pat| && a[i + j] == pat[j]
      invariant 0 <= j <= |pat| && i + j <= |s|
      invariant forall k :: 0 <= k < j ==> s[i + k] == pat[k]
    {
      assert a[i + j] != NUL;
      j := j + 1;
    }
    b := j == |pat|;
    OccursPointwise(s, pat, i);
  }

  /** strstr from position from on. */
  method Strstr(a: array<char>, from: nat, ghost size: nat, ghost s: seq<char>, pat: seq<char>) returns (r: int)
    requires from <= |s| && Holds(a, size, s) && NUL !in pat
    ensures r == FindFrom(s, pat, from)
  {
    var i := from;
    while true
      invariant from <= i <= |s|
      invariant FindFrom(s, pat, i) == FindFrom(s, pat, from)
      decreases |s| - i
    {
      var b := MatchAt(a, i, size, s, pat);
      if b {
        return i;
      }
      if a[i] == NUL {
        return NONE;
      }
      i := i + 1;
    }
  }

  method Strlen(a: array<char>, ghost size: nat, ghost s: seq<char>) returns (n: nat)
    requires Holds(a, size, s)
    ensures n == |s|
  {
    n := 0;
    while a[n] != NUL
      invariant n <= |s|
      decreases |s| - n
    {
      n := n + 1;
    }
  }

  /** memmove inside one buffer: the regions may overlap. */
  method Memmove(a: array<char>, dst: nat, src: nat, n: nat)
    requires dst + n <= a.Length && src + n <= a.Length
    modifies a
    ensures forall i :: 0 <= i < a.Length ==> a[i] == if dst <= i < dst + n then old(a[src + (i - dst)]) else old(a[i])
  {
    forall i | 0 <= i < n {
      a[dst + i] := a[src + i];
    }
  }

  method Memcpy(a: array<char>, dst: nat, s: seq<char>)
    requires dst + |s| <= a.Length
    modifies a
    ensures forall i :: 0 <= i < a.Length ==> a[i] == if dst <= i < dst + |s| then s[i - dst] else old(a[i])
  {
    forall i | 0 <= i < |s| {
      a[dst + i] := s[i];
    }
  }

  // ---- c_strreplace

  /** Room for one more replacement, as the code checks it. */
  predicate Room(len: nat, size: nat, pat: seq<char>, repl: seq<char>) {
    size > len + Max(|pat|, |repl|) + 1
  }

  /** There was room for each of the first k replacements. */
  ghost predicate RoomUpTo(s: seq<char>, pat: seq<char>, repl: seq<char>, size: nat, k: nat)
    requires pat != []
  {
    forall j: nat {:trigger Subst(s, pat, repl, j)} :: j < k ==> Room(|Subst(s, pat, repl, j)|, size, pat, repl)
  }

  lemma RoomStart(s: seq<char>, pat: seq<char>, repl: seq<char>, size: nat)
    requires pat != []
    ensures RoomUpTo(s, pat, repl, size, 0)
  {
  }

  lemma RoomStep(s: seq<char>, pat: seq<char>, repl: seq<char>, size: nat, k: nat)
    requires pat != [] && RoomUpTo(s, pat, repl, size, k) && Room(|Subst(s, pat, repl, k)|, size, pat, repl)
    ensures RoomUpTo(s, pat, repl, size, k + 1)
  {
  }

  /** What the buffer holds after c_strreplace: the first k occurrences are replaced, where k is as
      many as there are, or as many as there was room for. */
  ghost predicate ReplacedIn(s: seq<char>, pat: seq<char>, repl: seq<char>, size: nat, k: nat, all: bool)
    requires pat != []
  {
    && k <= Occurrences(s, pat) && RoomUpTo(s, pat, repl, size, k)
    && (if all then k == Occurrences(s, pat)
        else k < Occurrences(s, pat) && !Room(|Subst(s, pat, repl, k)|, size, pat, repl))
  }

  lemma Verdict(s: seq<char>, pat: seq<char>, repl: seq<char>, size: nat, k: nat)
    requires pat != [] && k <= Occurrences(s, pat) && RoomUpTo(s, pat, repl, size, k)
    ensures k == Occurrences(s, pat) ==> ReplacedIn(s, pat, repl, size, k, true)
    ensures k != Occurrences(s, pat) && !Room(|Subst(s, pat, repl, k)|, size, pat, repl) ==>
              ReplacedIn(s, pat, repl, size, k, false)
  {
  }

  /** When all occurrences are replaced, in numbers. A replacement that is longer than the pattern makes
      the string grow, so that the last one needs the most room; otherwise it is the first one. */
  lemma AllReplacedExactly(s: seq<char>, pat: seq<char>, repl: seq<char>, size: nat, k: nat, all: bool)
    requires pat != [] && ReplacedIn(s, pat, repl, size, k, all)
    ensures var n := Occurrences(s, pat);
            all <==> n == 0 || size > |s| + (n - 1) * Max(0, |repl| - |pat|) + Max(|pat|, |repl|) + 1
  {
    hide *;
    var n, d := Occurrences(s, pat), |repl| - |pat|;
    ReplacedIs(s, pat, repl, size, k, all);
    SubstLength(s, pat, repl, k);
    if all && n > 0 {
      var j := if d > 0 then n - 1 else 0;
      SubstLength(s, pat, repl, j);
      RoomFor(s, pat, repl, size, k, j);
      Product(j, n - 1, d);
    } else if !all {
      Product(k, n - 1, d);
    }
  }

  lemma ReplacedIs(s: seq<char>, pat: seq<char>, repl: seq<char>, size: nat, k: nat, all: bool)
    requires pat != [] && ReplacedIn(s, pat, repl, size, k, all)
    ensures k <= Occurrences(s, pat) && (all <==> k == Occurrences(s, pat))
    ensures !all ==> size <= |Subst(s, pat, repl, k)| + Max(|pat|, |repl|) + 1
  {
    hide Subst, Occurrences;
  }

  lemma RoomFor(s: seq<char>, pat: seq<char>, repl: seq<char>, size: nat, k: nat, j: nat)
    requires pat != [] && ReplacedIn(s, pat, repl, size, k, true) && j < k
    ensures size > |Subst(s, pat, repl, j)| + Max(|pat|, |repl|) + 1
  {
    hide Subst, Occurrences;
    assert Room(|Subst(s, pat, repl, j)|, size, pat, repl);
  }

  lemma Product(k: nat, n: nat, d: int)
    requires k <= n
    ensures k * d <= n * Max(0, d)
    ensures k == (if d > 0 then n else 0) ==> k * d == n * Max(0, d)
  {
    if d > 0 {
      assert (n - k) * d >= 0;
      assert n * d == (n - k) * d + k * d;
    } else {
      assert k * -d >= 0;
    }
  }

  /** There is only one number of replacements that the code can make. */
  lemma ReplacedOnce(s: seq<char>, pat: seq<char>, repl: seq<char>, size: nat, k: nat, all: bool, k': nat, all': bool)
    requires pat != [] && ReplacedIn(s, pat, repl, size, k, all) && ReplacedIn(s, pat, repl, size, k', all')
    ensures k == k' && all == all'
  {
  }

  /** t is s with the n characters at offset replaced. */
  ghost predicate OneReplaced(s: seq<char>, offset: nat, n: nat, repl: seq<char>, t: seq<char>) {
    offset + n <= |s| && t == s[..offset] + repl + s[offset + n..]
  }

  /** One replacement: the occurrence at offset gives way to repl, in place. */
  method ReplaceAt(a: array<char>, size: nat, ghost s: seq<char>, len: nat, offset: nat, pat: seq<char>,
                   repl: seq<char>, ghost t: seq<char>)
    requires Holds(a, size, s) && len == |s| && NUL !in repl && Room(len, size, pat, repl)
    requires OneReplaced(s, offset, |pat|, repl, t)
    modifies a
    ensures Holds(a, size, t)
    ensures forall i :: size <= i < a.Length ==> a[i] == old(a[i])
  {
    if |repl| != |pat| {
      Memmove(a, offset + |repl|, offset + |pat|, len - offset - |pat| + 1);
    }
    Memcpy(a, offset, repl);
  }

  /** One round of the loop: the room check, the replacement, and the search behind what was put in. */
  method ReplaceRound(a: array<char>, size: nat, pat: seq<char>, repl: seq<char>, p: nat,
                      ghost s: seq<char>, ghost k: nat, ghost done: seq<char>, ghost rest: seq<char>)
    returns (room: bool, next: int, ghost done': seq<char>, ghost rest': seq<char>)
    requires pat != [] && NUL !in pat && NUL !in repl
    requires Split(s, pat, repl, k, done, rest) && Holds(a, size, Subst(s, pat, repl, k))
    requires |done| <= |Subst(s, pat, repl, k)| && FindFrom(Subst(s, pat, repl, k), pat, |done|) == p
    modifies a
    ensures room == Room(|Subst(s, pat, repl, k)|, size, pat, repl)
    ensures forall i :: size <= i < a.Length ==> a[i] == old(a[i])
    ensures !room ==> Holds(a, size, Subst(s, pat, repl, k))
    ensures room ==>
              && Split(s, pat, repl, k + 1, done', rest') && Holds(a, size, Subst(s, pat, repl, k + 1))
              && |done'| <= |Subst(s, pat, repl, k + 1)| && next == FindFrom(Subst(s, pat, repl, k + 1), pat, |done'|)
              && |rest'| < |rest|
  {
    hide *;
    next, done', rest' := NONE, done, rest;
    var l := Strlen(a, size, Subst(s, pat, repl, k));
    room := size > l + (if |pat| < |repl| then |repl| else |pat|) + 1;
    RoomIs(l, size, pat, repl);
    if room {
      done', rest' := NextRound(s, pat, repl, k, done, rest, p);
      ReplaceAt(a, size, Subst(s, pat, repl, k), l, p, pat, repl, Subst(s, pat, repl, k + 1));
      next := Strstr(a, p + |repl|, size, Subst(s, pat, repl, k + 1), pat);
    }
  }

  lemma RoomIs(len: nat, size: nat, pat: seq<char>, repl: seq<char>)
    ensures Room(len, size, pat, repl) <==> size > len + (if |pat| < |repl| then |repl| else |pat|) + 1
  {
  }

  /** What a successful search at p means for the next replacement. */
  lemma NextRound(s: seq<char>, pat: seq<char>, repl: seq<char>, k: nat, done: seq<char>, rest: seq<char>, p: nat)
    returns (done': seq<char>, rest': seq<char>)
    requires pat != [] && Split(s, pat, repl, k, done, rest)
    requires |done| <= |Subst(s, pat, repl, k)| && FindFrom(Subst(s, pat, repl, k), pat, |done|) == p
    ensures Split(s, pat, repl, k + 1, done', rest') && |rest'| < |rest|
    ensures |done'| == p + |repl| <= |Subst(s, pat, repl, k + 1)|
    ensures OneReplaced(Subst(s, pat, repl, k), p, |pat|, repl, Subst(s, pat, repl, k + 1))
  {
    hide *;
    var i := FoundBehind(s, pat, repl, k, done, rest, p);
    done', rest' := done + rest[..i] + repl, rest[i + |pat|..];
    SplitStep(s, pat, repl, k, done, rest, i, rest');
    JoinReplaced(s, pat, repl, k, done, rest, i, done', rest');
  }

  lemma FoundBehind(s: seq<char>, pat: seq<char>, repl: seq<char>, k: nat, done: seq<char>, rest: seq<char>, p: nat)
    returns (i: nat)
    requires pat != [] && Split(s, pat, repl, k, done, rest)
    requires |done| <= |Subst(s, pat, repl, k)| && FindFrom(Subst(s, pat, repl, k), pat, |done|) == p
    ensures i == p - |done| && i + |pat| <= |rest| && FindFrom(rest, pat, 0) == i
  {
    hide Split, Subst, Occurrences;
    SplitNow(s, pat, repl, k, done, rest);
    FindBehind(done, rest, pat, 0);
    i := p - |done|;
  }

  lemma JoinReplaced(s: seq<char>, pat: seq<char>, repl: seq<char>, k: nat, done: seq<char>, rest: seq<char>, i: nat,
                     done': seq<char>, rest': seq<char>)
    requires pat != [] && Split(s, pat, repl, k, done, rest) && Split(s, pat, repl, k + 1, done', rest')
    requires i + |pat| <= |rest| && done' == done + rest[..i] + repl && rest' == rest[i + |pat|..]
    ensures |done'| == |done| + i + |repl| <= |Subst(s, pat, repl, k + 1)|
    ensures OneReplaced(Subst(s, pat, repl, k), |done| + i, |pat|, repl, Subst(s, pat, repl, k + 1))
  {
    SplitNow(s, pat, repl, k, done, rest);
    SplitNow(s, pat, repl, k + 1, done', rest');
    hide Split, Subst, Occurrences, FindFrom, OccursAt;
    SplitJoin(done, rest, i, |pat|, repl);
  }

  /** The do-while loop, from the first strstr on. */
  method ReplaceAll(a: array<char>, size: nat, pat: seq<char>, repl: seq<char>, ghost s: seq<char>)
    returns (ok: bool, replaced: bool, ghost k: nat)
    requires pat != [] && NUL !in pat && NUL !in repl && Holds(a, size, s)
    modifies a
    ensures Holds(a, size, Subst(s, pat, repl, k)) && ReplacedIn(s, pat, repl, size, k, ok) && (replaced <==> k > 0)
    ensures forall i :: size <= i < a.Length ==> a[i] == old(a[i])
  {
    ok, replaced, k := false, false, 0;
    hide *;
    RoomStart(s, pat, repl, size);
    SplitStart(s, pat, repl);
    ghost var done, rest := [], s;
    SearchEnd(s, pat, repl, 0, done, rest);
    var p := Strstr(a, 0, size, s, pat);
    while p != NONE
      invariant Split(s, pat, repl, k, done, rest) && Holds(a, size, Subst(s, pat, repl, k))
      invariant |done| <= |Subst(s, pat, repl, k)| && p == FindFrom(Subst(s, pat, repl, k), pat, |done|)
      invariant forall i :: size <= i < a.Length ==> a[i] == old(a[i])
      invariant RoomUpTo(s, pat, repl, size, k)
      invariant replaced <==> k > 0
      decreases |rest|
    {
      SearchEnd(s, pat, repl, k, done, rest);
      Verdict(s, pat, repl, size, k);
      var room, next;
      ghost var done', rest';
      room, next, done', rest' := ReplaceRound(a, size, pat, repl, p, s, k, done, rest);
      if !room {
        return;
      }
      RoomStep(s, pat, repl, size, k);
      replaced := true;
      done, rest, k := done', rest', k + 1;
      p := next;
    }
    SearchEnd(s, pat, repl, k, done, rest);
    Verdict(s, pat, repl, size, k);
    ok := true;
  }

  // ---- The empty pattern is found everywhere: the replacement is put in front until there is no room

  function Times(repl: seq<char>, k: nat): (r: seq<char>)
    ensures |r| == k * |repl|
  {
    if k == 0 then [] else Times(repl, k - 1) + repl
  }

  /** repl was put in front of s as often as there was room for it. */
  ghost predicate FilledUp(s: seq<char>, repl: seq<char>, size: nat, k: nat) {
    && !Room(|Times(repl, k) + s|, size, [], repl)
    && forall j: nat {:trigger Times(repl, j)} :: j < k ==> Room(|Times(repl, j) + s|, size, [], repl)
  }

  /** Putting repl behind what was put in before. */
  lemma PutIn(s: seq<char>, repl: seq<char>, k: nat)
    ensures OneReplaced(Times(repl, k) + s, k * |repl|, 0, repl, Times(repl, k + 1) + s)
  {
    var before := Times(repl, k);
    assert (before + s)[..|before|] == before && (before + s)[|before|..] == s;
  }

  lemma EmptyFound(s: seq<char>, i: nat)
    requires i <= |s|
    ensures FindFrom(s, [], i) == i
  {
    assert s[i..i] == [];
  }

  /** After k rounds, now is in the buffer, and the next place to put repl is p. */
  ghost predicate Filling(s: seq<char>, repl: seq<char>, size: nat, k: nat, now: seq<char>, p: int) {
    && now == Times(repl, k) + s && p == k * |repl|
    && forall j: nat {:trigger Times(repl, j)} :: j < k ==> Room(|Times(repl, j) + s|, size, [], repl)
  }

  lemma FillingNext(s: seq<char>, repl: seq<char>, size: nat, k: nat, now: seq<char>, p: nat) returns (next: seq<char>)
    requires Filling(s, repl, size, k, now, p)
    ensures !Room(|now|, size, [], repl) ==> FilledUp(s, repl, size, k)
    ensures Room(|now|, size, [], repl) ==> Filling(s, repl, size, k + 1, next, p + |repl|)
    ensures OneReplaced(now, p, 0, repl, next) && |next| == |now| + |repl| && p + |repl| <= |next|
    ensures FindFrom(next, [], p + |repl|) == p + |repl|
  {
    next := Times(repl, k + 1) + s;
    PutIn(s, repl, k);
    assert (k + 1) * |repl| == k * |repl| + |repl|;
    EmptyFound(next, p + |repl|);
  }

  /** With an empty replacement, and room in the buffer, a round of that loop comes back to where it
      was: the same string, and the same position in it. The C code does not end. */
  lemma EmptyRound(s: seq<char>, size: nat, k: nat, now: seq<char>, p: nat) returns (next: seq<char>)
    requires Filling(s, [], size, k, now, p) && Room(|now|, size, [], [])
    ensures OneReplaced(now, p, 0, [], next) && Filling(s, [], size, k + 1, next, FindFrom(next, [], p))
    ensures next == now && FindFrom(next, [], p) == p && Room(|next|, size, [], [])
  {
    next := FillingNext(s, [], size, k, now, p);
    assert now[..p] + [] + now[p..] == now;
  }

  /** The same loop, for the empty pattern. With an empty replacement it would not end. */
  method FillUp(a: array<char>, size: nat, repl: seq<char>, ghost s: seq<char>) returns (replaced: bool, ghost k: nat)
    requires NUL !in repl && Holds(a, size, s) && (repl == [] ==> !Room(|s|, size, [], repl))
    modifies a
    ensures Holds(a, size, Times(repl, k) + s) && FilledUp(s, repl, size, k) && (replaced <==> k > 0)
    ensures forall i :: size <= i < a.Length ==> a[i] == old(a[i])
  {
    replaced, k := false, 0;
    ghost var now := s;
    FillingStarts(s, repl, size);
    EmptyFound(s, 0);
    hide *;
    var p := Strstr(a, 0, size, s, []);
    while true
      invariant Holds(a, size, now) && Filling(s, repl, size, k, now, p) && 0 <= p && (repl == [] ==> now == s)
      invariant forall i :: size <= i < a.Length ==> a[i] == old(a[i])
      invariant replaced <==> k > 0
      decreases size - |now|
    {
      ghost var next := FillingNext(s, repl, size, k, now, p);
      FillingIs(s, repl, size, k, now, p);
      var l := Strlen(a, size, now);
      RoomIs(l, size, [], repl);
      if size <= l + |repl| + 1 {
        return;
      }
      ReplaceAt(a, size, now, l, p, [], repl, next);
      p := Strstr(a, p + |repl|, size, next, []);
      replaced, now, k := true, next, k + 1;
    }
  }

  lemma FillingStarts(s: seq<char>, repl: seq<char>, size: nat)
    ensures Filling(s, repl, size, 0, s, 0)
  {
    assert Times(repl, 0) + s == s;
  }

  lemma FillingIs(s: seq<char>, repl: seq<char>, size: nat, k: nat, now: seq<char>, p: int)
    requires Filling(s, repl, size, k, now, p)
    ensures now == Times(repl, k) + s
  {
  }

  /** c_strreplace on the string s in the first size places of src. Null arguments and size 0 are
      refused; nothing behind the first size places is touched. (With an empty pattern and an empty
      replacement, and room in the buffer, the C code does not end.) */
  method CStrReplace(src: array?<char>, size: nat, pattern: Option<seq<char>>, repl: Option<seq<char>>,
                     ghost s: seq<char>)
    returns (ok: bool, replaced: bool, ghost k: nat)
    requires src != null && size > 0 ==> Holds(src, size, s)
    requires (pattern.Some? ==> NUL !in pattern.value) && (repl.Some? ==> NUL !in repl.value)
    requires pattern == repl == Some([]) ==> size <= |s| + 1
    modifies if src == null then {} else {src}
    ensures src == null || size == 0 || pattern.None? || repl.None? ==>
              !ok && !replaced && (src != null ==> src[..] == old(src[..]))
    ensures src != null && size > 0 && pattern.Some? && repl.Some? && pattern.value != [] ==>
              && Holds(src, size, Subst(s, pattern.value, repl.value, k))
              && ReplacedIn(s, pattern.value, repl.value, size, k, ok)
    ensures src != null && size > 0 && pattern == Some([]) && repl.Some? ==>
              !ok && Holds(src, size, Times(repl.value, k) + s) && FilledUp(s, repl.value, size, k)
    ensures src != null && size > 0 && pattern.Some? && repl.Some? ==>
              (replaced <==> k > 0) && forall i :: size <= i < src.Length ==> src[i] == old(src[i])
  {
    if src == null || size == 0 || pattern.None? || repl.None? {
      return false, false, 0;
    }
    RoomIs(|s|, size, [], []);
    hide *;
    if pattern.value == [] {
      ok := false;
      replaced, k := FillUp(src, size, repl.value, s);
    } else {
      ok, replaced, k := ReplaceAll(src, size, pattern.value, repl.value, s);
    }
  }
}
