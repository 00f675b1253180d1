// cmprepare_xml_attribute_string: five in-place replacements that together are one escaping.
module XmlEscape {
  import opened Wrappers
  import opened StringReplace

  /** The predefined entities of XML (section 4.6 of XML 1.0, Fifth Edition). */
  function EscapeChar(c: char): seq<char> {
    if c == '&' then "&amp;"
    else if c == '\"' then "&quot;"
    else if c == '\'' then "&apos;"
    else if c == '<' then "&lt;"
    else if c == '>' then "&gt;"
    else [c]
  }

  /** Every character escaped, all at once. */
  function Escape(s: seq<char>): seq<char> {
    if s == [] then [] else EscapeChar(s[0]) + Escape(s[1..])
  }

  /** A text with entities read back; what is not one of the five entities stands for itself. */
  function Unescape(s: seq<char>): seq<char> {
    if s == [] then []
    else if "&amp;" <= s then ['&'] + Unescape(s[5..])
    else if "&quot;" <= s then ['\"'] + Unescape(s[6..])
    else if "&apos;" <= s then ['\''] + Unescape(s[6..])
    else if "&lt;" <= s then ['<'] + Unescape(s[4..])
    else if "&gt;" <= s then ['>'] + Unescape(s[4..])
    else [s[0]] + Unescape(s[1..])
  }

  /** Escaping loses nothing: the entities decode to the source. */
  lemma {:induction false} UnescapeEscape(s: seq<char>)
    ensures Unescape(Escape(s)) == s
    decreases |s|
  {
    if s != [] {
      UnescapeEscape(s[1..]);
      var rest := Escape(s[1..]);
      UnescapeOne(s[0], rest);
    }
  }

  lemma UnescapeOne(c: char, rest: seq<char>)
    ensures Unescape(EscapeChar(c) + rest) == [c] + Unescape(rest)
  {
    hide Unescape;
    if c == '&' { UnescapeAmp(rest); }
    else if c == '\"' { UnescapeQuot(rest); }
    else if c == '\'' { UnescapeApos(rest); }
    else if c == '<' { UnescapeLt(rest); }
    else if c == '>' { UnescapeGt(rest); }
    else { UnescapePlain(c, rest); }
  }

  lemma UnescapeAmp(rest: seq<char>)
    ensures Unescape("&amp;" + rest) == ['&'] + Unescape(rest)
  {
    assert ("&amp;" + rest)[5..] == rest;
  }

  lemma UnescapeQuot(rest: seq<char>)
    ensures Unescape("&quot;" + rest) == ['\"'] + Unescape(rest)
  {
    var s := "&quot;" + rest;
    assert s[1] == 'q' && s[6..] == rest;
  }

  lemma UnescapeApos(rest: seq<char>)
    ensures Unescape("&apos;" + rest) == ['\''] + Unescape(rest)
  {
    var s := "&apos;" + rest;
    assert s[1] == 'a' && s[2] == 'p' && s[6..] == rest;
  }

  lemma UnescapeLt(rest: seq<char>)
    ensures Unescape("&lt;" + rest) == ['<'] + Unescape(rest)
  {
    var s := "&lt;" + rest;
    assert s[1] == 'l' && s[4..] == rest;
  }

  lemma UnescapeGt(rest: seq<char>)
    ensures Unescape("&gt;" + rest) == ['>'] + Unescape(rest)
  {
    var s := "&gt;" + rest;
    assert s[1] == 'g' && s[4..] == rest;
  }

  lemma UnescapePlain(c: char, rest: seq<char>)
    requires c != '&'
    ensures Unescape([c] + rest) == [c] + Unescape(rest)
  {
    var s := [c] + rest;
    assert s[0] == c && s[1..] == rest;
  }

  lemma EscapeInjective(s: seq<char>, t: seq<char>)
    requires Escape(s) == Escape(t)
    ensures s == t
  {
    UnescapeEscape(s);
    UnescapeEscape(t);
  }

  /** The result has no raw markup character. */
  lemma {:induction false} NoRawMarkup(s: seq<char>, x: char)
    requires x == '<' || x == '>' || x == '\"' || x == '\'' || (x == NUL && NUL !in s)
    ensures x !in Escape(s)
    decreases |s|
  {
    if s != [] {
      NoRawMarkup(s[1..], x);
      CharClean(s[0], x);
      hide EscapeChar;
    }
  }

  lemma CharClean(c: char, x: char)
    requires x == '<' || x == '>' || x == '\"' || x == '\'' || (x == NUL && c != NUL)
    ensures x !in EscapeChar(c)
  {
  }

  lemma {:induction false} EscapeLength(s: seq<char>)
    ensures |s| <= |Escape(s)| <= 6 * |s|
    decreases |s|
  {
    if s != [] { EscapeLength(s[1..]); }
  }

  // ---- One stage

  /** Every c in s replaced by r. */
  function ReplaceChar(s: seq<char>, c: char, r: seq<char>): seq<char> {
    if s == [] then [] else (if s[0] == c then r else [s[0]]) + ReplaceChar(s[1..], c, r)
  }

  lemma {:induction false} ReplaceCharConcat(s: seq<char>, t: seq<char>, c: char, r: seq<char>)
    ensures ReplaceChar(s + t, c, r) == ReplaceChar(s, c, r) + ReplaceChar(t, c, r)
    decreases |s|
  {
    if s == [] {
      assert s + t == t;
    } else {
      ReplaceCharConcat(s[1..], t, c, r);
      assert (s + t)[1..] == s[1..] + t && (s + t)[0] == s[0];
      var first, rest := if s[0] == c then r else [s[0]], ReplaceChar(s[1..], c, r);
      assert (first + rest) + ReplaceChar(t, c, r) == first + (rest + ReplaceChar(t, c, r));
    }
  }

  lemma {:induction false} ReplaceCharAbsent(s: seq<char>, c: char, r: seq<char>)
    requires c !in s
    ensures ReplaceChar(s, c, r) == s
    decreases |s|
  {
    if s != [] { ReplaceCharAbsent(s[1..], c, r); }
  }

  lemma {:induction false} ReplaceCharGrows(s: seq<char>, c: char, r: seq<char>)
    requires |r| >= 1
    ensures |ReplaceChar(s, c, r)| >= |s|
    decreases |s|
  {
    if s != [] { ReplaceCharGrows(s[1..], c, r); }
  }

  /** Searching for one character finds its first place. */
  lemma FindsFirst(s: seq<char>, c: char)
    ensures var i := FindFrom(s, [c], 0);
            if i == NONE then c !in s else i < |s| && s[i] == c && c !in s[..i]
  {
    hide FindFrom, OccursAt;
    var i := FindFrom(s, [c], 0);
    forall j | 0 <= j < |s| && s[j] == c ensures 0 <= i <= j {
      OccursOne(s, c, j);
      FindLeftmost(s, [c], 0, j);
    }
    if i != NONE {
      OccursOne(s, c, i);
    }
  }

  lemma OccursOne(s: seq<char>, c: char, i: nat)
    ensures OccursAt(s, [c], i) <==> i < |s| && s[i] == c
  {
    assert i < |s| ==> s[i..i + 1] == [s[i]];
  }

  /** Replacing all occurrences of a one-character pattern is replacing that character. */
  lemma {:induction false} SubstAllIsReplaceChar(s: seq<char>, c: char, r: seq<char>)
    ensures Subst(s, [c], r, Occurrences(s, [c])) == ReplaceChar(s, c, r)
    decreases |s|
  {
    FindsFirst(s, c);
    var i := FindFrom(s, [c], 0);
    if i == NONE {
      ReplaceCharAbsent(s, c, r);
    } else {
      SubstAllIsReplaceChar(s[i + 1..], c, r);
      ReplaceCharAt(s, c, r, i);
    }
  }

  lemma ReplaceCharAt(s: seq<char>, c: char, r: seq<char>, i: nat)
    requires i < |s| && s[i] == c && c !in s[..i]
    ensures ReplaceChar(s, c, r) == s[..i] + r + ReplaceChar(s[i + 1..], c, r)
  {
    assert s == s[..i] + s[i..];
    ReplaceCharConcat(s[..i], s[i..], c, r);
    ReplaceCharAbsent(s[..i], c, r);
    assert s[i..][1..] == s[i + 1..];
  }

  /** What one stage leaves: all replaced if there was room, and if anything was replaced there was
      room for it and two more characters. */
  lemma Stage(s: seq<char>, c: char, r: seq<char>, size: nat, k: nat, ok: bool)
    requires |r| > 1 && ReplacedIn(s, [c], r, size, k, ok)
    ensures var t := Subst(s, [c], r, k);
            && (ok ==> t == ReplaceChar(s, c, r))
            && (!ok ==> |ReplaceChar(s, c, r)| > |s| && size <= |ReplaceChar(s, c, r)| + 2)
            && (if k == 0 then t == s else size > |t| + 2)
  {
    hide Subst, Occurrences, ReplaceChar, FindFrom, RoomUpTo;
    SubstAllIsReplaceChar(s, c, r);
    var n, d := Occurrences(s, [c]), |r| - 1;
    SubstLength(s, [c], r, k);
    SubstLength(s, [c], r, n);
    NoneReplaced(s, c, r);
    if !ok {
      Next(k + 1, d);
      Scale(k + 1, n, d);
    }
    if k > 0 {
      LastHadRoom(s, c, r, size, k);
      SubstLength(s, [c], r, k - 1);
      Next(k, d);
    }
  }

  lemma NoneReplaced(s: seq<char>, c: char, r: seq<char>)
    ensures Subst(s, [c], r, 0) == s
  {
  }

  lemma LastHadRoom(s: seq<char>, c: char, r: seq<char>, size: nat, k: nat)
    requires k > 0 && RoomUpTo(s, [c], r, size, k)
    ensures Room(|Subst(s, [c], r, k - 1)|, size, [c], r)
  {
  }

  lemma Next(k: nat, d: nat)
    requires k > 0
    ensures k * d == (k - 1) * d + d
  {
  }

  lemma Scale(a: nat, b: nat, d: nat)
    requires a <= b
    ensures a * d <= b * d
  {
  }

  // ---- All five stages

  function Stages(s: seq<char>): seq<char> {
    var s1 := ReplaceChar(s, '&', "&amp;");
    var s2 := ReplaceChar(s1, '\"', "&quot;");
    var s3 := ReplaceChar(s2, '\'', "&apos;");
    var s4 := ReplaceChar(s3, '<', "&lt;");
    ReplaceChar(s4, '>', "&gt;")
  }

  lemma StagesConcat(s: seq<char>, t: seq<char>)
    ensures Stages(s + t) == Stages(s) + Stages(t)
  {
    var s1, t1 := ReplaceChar(s, '&', "&amp;"), ReplaceChar(t, '&', "&amp;");
    var s2, t2 := ReplaceChar(s1, '\"', "&quot;"), ReplaceChar(t1, '\"', "&quot;");
    var s3, t3 := ReplaceChar(s2, '\'', "&apos;"), ReplaceChar(t2, '\'', "&apos;");
    var s4, t4 := ReplaceChar(s3, '<', "&lt;"), ReplaceChar(t3, '<', "&lt;");
    ReplaceCharConcat(s, t, '&', "&amp;");
    ReplaceCharConcat(s1, t1, '\"', "&quot;");
    ReplaceCharConcat(s2, t2, '\'', "&apos;");
    ReplaceCharConcat(s3, t3, '<', "&lt;");
    ReplaceCharConcat(s4, t4, '>', "&gt;");
  }

  lemma ReplaceCharOne(c: char, d: char, r: seq<char>)
    ensures ReplaceChar([c], d, r) == if c == d then r else [c]
  {
    assert [c][1..] == [];
    assert r + [] == r;
  }

  lemma StagesChar(c: char)
    ensures Stages([c]) == EscapeChar(c)
  {
    hide ReplaceChar;
    ReplaceCharOne(c, '&', "&amp;");
    if c == '&' {
      ReplaceCharAbsent("&amp;", '\"', "&quot;");
      ReplaceCharAbsent("&amp;", '\'', "&apos;");
      ReplaceCharAbsent("&amp;", '<', "&lt;");
      ReplaceCharAbsent("&amp;", '>', "&gt;");
    } else {
      ReplaceCharOne(c, '\"', "&quot;");
      if c == '\"' {
        ReplaceCharAbsent("&quot;", '\'', "&apos;");
        ReplaceCharAbsent("&quot;", '<', "&lt;");
        ReplaceCharAbsent("&quot;", '>', "&gt;");
      } else {
        ReplaceCharOne(c, '\'', "&apos;");
        if c == '\'' {
          ReplaceCharAbsent("&apos;", '<', "&lt;");
          ReplaceCharAbsent("&apos;", '>', "&gt;");
        } else {
          ReplaceCharOne(c, '<', "&lt;");
          if c == '<' {
            ReplaceCharAbsent("&lt;", '>', "&gt;");
          } else {
            ReplaceCharOne(c, '>', "&gt;");
          }
        }
      }
    }
  }

  /** The five replacements in sequence, ampersand first, are the simultaneous escaping. */
  lemma {:induction false} StagesAreEscape(s: seq<char>)
    ensures Stages(s) == Escape(s)
    decreases |s|
  {
    if s != [] {
      assert s == [s[0]] + s[1..];
      StagesConcat([s[0]], s[1..]);
      StagesChar(s[0]);
      StagesAreEscape(s[1..]);
    }
  }

  // ---- The function itself

  /** When the buffer is large enough for the code: two places more than the result and its NUL if
      anything is to be escaped. */
  ghost predicate Fits(s: seq<char>, size: nat) {
    |s| < size && (|Escape(s)| == |s| || size > |Escape(s)| + 2)
  }

  lemma LargeFits(s: seq<char>, size: nat)
    requires size > 6 * |s| + 2
    ensures Fits(s, size)
  {
    EscapeLength(s);
  }

  /** snprintf(buf, size, "%s", s), with size > 0. */
  method Snprintf(buf: array<char>, size: nat, s: seq<char>) returns (ghost t: seq<char>)
    requires 0 < size <= buf.Length && NUL !in s
    modifies buf
    ensures t == (if |s| < size then s else s[..size - 1]) && Holds(buf, size, t)
    ensures forall i :: size <= i < buf.Length ==> buf[i] == old(buf[i])
  {
    t := if |s| < size then s else s[..size - 1];
    var n := if |s| < size then |s| else size - 1;
    Memcpy(buf, 0, s[..n]);
    buf[n] := NUL;
  }

  /** t is s with every c replaced by r, unless there was no room for that. */
  ghost predicate StageDone(s: seq<char>, c: char, r: seq<char>, size: nat, t: seq<char>) {
    t == ReplaceChar(s, c, r) || (|ReplaceChar(s, c, r)| > |s| && size <= |ReplaceChar(s, c, r)| + 2)
  }

  /** t is what c_strreplace leaves of s: its first c are replaced by r, as many as there was room for. */
  ghost predicate StageLeaves(s: seq<char>, c: char, r: seq<char>, size: nat, t: seq<char>) {
    exists k: nat, all: bool {:trigger ReplacedIn(s, [c], r, size, k, all)} ::
      ReplacedIn(s, [c], r, size, k, all) && t == Subst(s, [c], r, k)
  }

  /** What the buffer holds from stage to stage: the source, cut off if it is too long, and then what
      each replacement leaves of it. */
  ghost predicate StagesLeave(src: seq<char>, size: nat, ts: seq<seq<char>>) {
    && size > 0 && |ts| == 6 && ts[0] == (if |src| < size then src else src[..size - 1])
    && StageLeaves(ts[0], '&', "&amp;", size, ts[1]) && StageLeaves(ts[1], '\"', "&quot;", size, ts[2])
    && StageLeaves(ts[2], '\'', "&apos;", size, ts[3]) && StageLeaves(ts[3], '<', "&lt;", size, ts[4])
    && StageLeaves(ts[4], '>', "&gt;", size, ts[5])
  }

  /** What is left is determined by the source and the size. */
  lemma StagesLeaveOne(src: seq<char>, size: nat, ts: seq<seq<char>>, ts': seq<seq<char>>)
    requires StagesLeave(src, size, ts) && StagesLeave(src, size, ts')
    ensures ts == ts'
  {
    StageLeavesOne(ts[0], '&', "&amp;", size, ts[1], ts'[1]);
    StageLeavesOne(ts[1], '\"', "&quot;", size, ts[2], ts'[2]);
    StageLeavesOne(ts[2], '\'', "&apos;", size, ts[3], ts'[3]);
    StageLeavesOne(ts[3], '<', "&lt;", size, ts[4], ts'[4]);
    StageLeavesOne(ts[4], '>', "&gt;", size, ts[5], ts'[5]);
  }

  lemma StageLeavesOne(s: seq<char>, c: char, r: seq<char>, size: nat, t: seq<char>, t': seq<char>)
    requires StageLeaves(s, c, r, size, t) && StageLeaves(s, c, r, size, t')
    ensures t == t'
  {
    var k: nat, all: bool :| ReplacedIn(s, [c], r, size, k, all) && t == Subst(s, [c], r, k);
    var k': nat, all': bool :| ReplacedIn(s, [c], r, size, k', all') && t' == Subst(s, [c], r, k');
    ReplacedOnce(s, [c], r, size, k, all, k', all');
  }

  /** What is known of one stage. */
  ghost predicate StageMade(s: seq<char>, c: char, r: seq<char>, size: nat, t: seq<char>) {
    && StageDone(s, c, r, size, t) && StageLeaves(s, c, r, size, t)
    && (t == s || size > |t| + 2)
  }

  /** One call of c_strreplace, with what it leaves of the string so far. */
  method StageInPlace(buf: array<char>, size: nat, c: char, r: seq<char>,
                      ghost s: seq<char>) returns (ghost t: seq<char>)
    requires |r| > 1 && c != NUL && NUL !in r && Holds(buf, size, s)
    modifies buf
    ensures Holds(buf, size, t) && forall i :: size <= i < buf.Length ==> buf[i] == old(buf[i])
    ensures StageMade(s, c, r, size, t)
  {
    var ok, replaced;
    ghost var k;
    ok, replaced, k := CStrReplace(buf, size, Some([c]), Some(r), s);
    Stage(s, c, r, size, k, ok);
    t := Subst(s, [c], r, k);
  }

  /** The buffer holds the escaped source exactly when it was large enough, and otherwise what the
      replacements leave of it. */
  method PrepareXmlAttributeString(buf: array<char>, size: nat, src: seq<char>) returns (ghost ts: seq<seq<char>>)
    requires size <= buf.Length && NUL !in src
    modifies buf
    ensures size == 0 ==> buf[..] == old(buf[..])
    ensures size > 0 ==> StagesLeave(src, size, ts) && Holds(buf, size, ts[5])
    ensures size > 0 ==> (ts[5] == Escape(src) <==> Fits(src, size))
    ensures forall i :: size <= i < buf.Length ==> buf[i] == old(buf[i])
  {
    ts := [];
    if size == 0 {
      return;
    }
    hide *;
    ghost var t0 := Snprintf(buf, size, src);
    ghost var t1 := StageInPlace(buf, size, '&', "&amp;", t0);
    ghost var t2 := StageInPlace(buf, size, '\"', "&quot;", t1);
    ghost var t3 := StageInPlace(buf, size, '\'', "&apos;", t2);
    ghost var t4 := StageInPlace(buf, size, '<', "&lt;", t3);
    ghost var t5 := StageInPlace(buf, size, '>', "&gt;", t4);
    ts := StagesAre(src, size, t0, t1, t2, t3, t4, t5);
  }

  /** The five stages together. */
  lemma StagesAre(src: seq<char>, size: nat, t0: seq<char>, t1: seq<char>, t2: seq<char>, t3: seq<char>, t4: seq<char>,
                  t5: seq<char>) returns (ts: seq<seq<char>>)
    requires size > 0 && t0 == (if |src| < size then src else src[..size - 1])
    requires StageMade(t0, '&', "&amp;", size, t1) && StageMade(t1, '\"', "&quot;", size, t2)
    requires StageMade(t2, '\'', "&apos;", size, t3) && StageMade(t3, '<', "&lt;", size, t4)
    requires StageMade(t4, '>', "&gt;", size, t5)
    ensures StagesLeave(src, size, ts) && ts[5] == t5 && (t5 == Escape(src) <==> Fits(src, size))
  {
    hide StageLeaves, StageDone, Escape;
    ts := [t0, t1, t2, t3, t4, t5];
    EscapeLength(src);
    if Fits(src, size) {
      StagesFit(src, size, t1, t2, t3, t4, t5);
    } else if t5 == Escape(src) {
      NothingDone(src, size, ts);
    }
  }

  /** If the last stage left no room to spare, none of the stages did anything. */
  lemma NothingDone(src: seq<char>, size: nat, ts: seq<seq<char>>)
    requires |ts| == 6 && size <= |ts[5]| + 2
    requires forall i :: 0 <= i < 5 ==> ts[i + 1] == ts[i] || size > |ts[i + 1]| + 2
    ensures ts[5] == ts[0]
  {
    assert ts[5] == ts[4];
    assert ts[4] == ts[3];
    assert ts[3] == ts[2];
    assert ts[2] == ts[1];
    assert ts[1] == ts[0];
  }

  /** With enough room, every stage is complete. */
  lemma StagesFit(s: seq<char>, size: nat, t1: seq<char>, t2: seq<char>, t3: seq<char>, t4: seq<char>, t5: seq<char>)
    requires Fits(s, size)
    requires StageDone(s, '&', "&amp;", size, t1) && StageDone(t1, '\"', "&quot;", size, t2)
    requires StageDone(t2, '\'', "&apos;", size, t3) && StageDone(t3, '<', "&lt;", size, t4)
    requires StageDone(t4, '>', "&gt;", size, t5)
    ensures t5 == Escape(s)
  {
    StagesAreEscape(s);
    var s1 := ReplaceChar(s, '&', "&amp;");
    var s2 := ReplaceChar(s1, '\"', "&quot;");
    var s3 := ReplaceChar(s2, '\'', "&apos;");
    var s4 := ReplaceChar(s3, '<', "&lt;");
    ReplaceCharGrows(s, '&', "&amp;");
    ReplaceCharGrows(s1, '\"', "&quot;");
    ReplaceCharGrows(s2, '\'', "&apos;");
    ReplaceCharGrows(s3, '<', "&lt;");
    ReplaceCharGrows(s4, '>', "&gt;");
  }
}
