// Call ordering as a value: what a call does to the list of expected calls, and which traces of
// calls a list of declarations accepts.
module CallOrder {
  import opened Wrappers
  import opened Expectations
  import opened Sequences

  /** An expected call and its count: n > 0 is "n calls", -1 "at least one", -2 and below "any number". */
  datatype Expected = Expected(callee: string, count: int)

  /** The first entry that is for f or that may not be skipped; |s| if there is none. */
  function Scan(s: seq<Expected>, f: string): (k: nat)
    ensures k <= |s|
    ensures forall i :: 0 <= i < k ==> s[i].callee != f && s[i].count <= -2
    ensures k < |s| ==> s[k].callee == f || s[k].count > -2
  {
    if s == [] || s[0].callee == f || s[0].count > -2 then 0 else 1 + Scan(s[1..], f)
  }

  /** What a call of f does to the list; None if the call is not accepted. */
  function Called(s: seq<Expected>, f: string): Option<seq<Expected>> {
    var k := Scan(s, f);
    if k == |s| || s[k].callee != f then None
    else if s[k].count <= -2 then Some(s)
    else if s[k].count == 1 then Some(s[..k] + s[k + 1..])
    else Some(s[k := Expected(f, s[k].count - 1)])
  }

  /** The end-of-test pass: every entry that may be skipped goes. */
  function SweepCalls(s: seq<Expected>): seq<Expected> {
    if s == [] then [] else (if s[0].count < -1 then [] else [s[0]]) + SweepCalls(s[1..])
  }

  // ---- Runs

  datatype CallOp = Expect(entry: Expected) | Call(callee: string)

  /** changed: the calls that changed the list, in order. */
  datatype CallRun = CallRun(ok: bool, list: seq<Expected>, changed: seq<string>)

  function RunCalls(s: seq<Expected>, ops: seq<CallOp>): CallRun
    decreases |ops|
  {
    if ops == [] then CallRun(true, s, []) else
    match ops[0]
    case Expect(e) => if e.count == 0 then CallRun(false, s, []) else RunCalls(s + [e], ops[1..])
    case Call(f) =>
      match Called(s, f)
      case None => CallRun(false, s, [])
      case Some(s') =>
        var r := RunCalls(s', ops[1..]);
        r.(changed := (if s' == s then [] else [f]) + r.changed)
  }

  function Declared(ops: seq<CallOp>): seq<Expected> {
    if ops == [] then [] else (if ops[0].Expect? then [ops[0].entry] else []) + Declared(ops[1..])
  }

  function Repeat(f: string, n: nat): seq<string> {
    seq(n, _ => f)
  }

  /** The calls an entry still asks for: n for a positive count, one for -1, none below. */
  function Asked(e: Expected): seq<string> {
    if e.count >= 0 then Repeat(e.callee, e.count) else if e.count == -1 then [e.callee] else []
  }

  /** The calls a list still asks for. */
  function Expansion(s: seq<Expected>): seq<string> {
    if s == [] then [] else Asked(s[0]) + Expansion(s[1..])
  }

  lemma ExpansionCons(e: Expected, rest: seq<Expected>)
    ensures Expansion([e] + rest) == Asked(e) + Expansion(rest)
  {
    assert ([e] + rest)[1..] == rest;
  }

  lemma {:induction false} ExpansionConcat(s: seq<Expected>, t: seq<Expected>)
    ensures Expansion(s + t) == Expansion(s) + Expansion(t)
    decreases |s|
  {
    if s == [] {
      assert s + t == t;
    } else {
      var e, rest := s[0], s[1..];
      assert s == [e] + rest;
      Regroup([e], rest, t);
      ExpansionCons(e, rest);
      ExpansionCons(e, rest + t);
      ExpansionConcat(rest, t);
      hide Expansion;
      Regroup(Asked(e), Expansion(rest), Expansion(t));
    }
  }

  lemma {:induction false} ExpansionSkipped(s: seq<Expected>)
    requires forall i :: 0 <= i < |s| ==> s[i].count <= -2
    ensures Expansion(s) == []
    decreases |s|
  {
    if s != [] { ExpansionSkipped(s[1..]); }
  }

  /** An accepted call leaves counts that are not 0. */
  lemma CountsStay(s: seq<Expected>, f: string)
    requires Called(s, f).Some? && forall i :: 0 <= i < |s| ==> s[i].count != 0
    ensures forall i :: 0 <= i < |Called(s, f).value| ==> Called(s, f).value[i].count != 0
  {
    hide Scan;
  }

  ghost predicate Skippable(s: seq<Expected>) {
    forall i :: 0 <= i < |s| ==> s[i].count <= -2
  }

  /** Behind entries that may be skipped, a list asks for what its k-th entry and the rest ask for. */
  lemma ExpansionFrom(s: seq<Expected>, k: nat)
    requires k < |s| && Skippable(s[..k])
    ensures Expansion(s) == Expansion([s[k]]) + Expansion(s[k + 1..])
  {
    hide Expansion, Skippable;
    assert s == s[..k] + ([s[k]] + s[k + 1..]);
    ExpansionBehind(s[..k], [s[k]] + s[k + 1..]);
    ExpansionConcat([s[k]], s[k + 1..]);
  }

  lemma ExpansionBehind(before: seq<Expected>, after: seq<Expected>)
    requires Skippable(before)
    ensures Expansion(before + after) == Expansion(after)
  {
    ExpansionSkipped(before);
    ExpansionConcat(before, after);
  }

  lemma CountedDown(s: seq<Expected>, k: nat, e: Expected, s': seq<Expected>)
    requires k < |s| && Skippable(s[..k]) && e != s[k] && s' == s[k := e]
    ensures s' != s && Expansion(s') == Expansion([e]) + Expansion(s[k + 1..])
  {
    assert s'[..k] == s[..k] && s'[k + 1..] == s[k + 1..] && s'[k] == e;
    ExpansionFrom(s', k);
  }

  lemma ScanSkips(s: seq<Expected>, f: string)
    ensures Skippable(s[..Scan(s, f)])
  {
  }

  lemma UsedUp(s: seq<Expected>, k: nat, s': seq<Expected>)
    requires k < |s| && Skippable(s[..k]) && s' == s[..k] + s[k + 1..]
    ensures s' != s && Expansion(s') == Expansion(s[k + 1..])
  {
    assert |s'| != |s|;
    ExpansionBehind(s[..k], s[k + 1..]);
  }

  /** Using up an entry takes the first call the list still asks for. */
  lemma FirstTaken(s: seq<Expected>, k: nat, e: Expected, s': seq<Expected>)
    requires k < |s| && e == s[k] && e.count > -2 && e.count != 0 && Skippable(s[..k])
    requires s' == if e.count == 1 then s[..k] + s[k + 1..] else s[k := Expected(e.callee, e.count - 1)]
    ensures s' != s && Expansion(s) == [e.callee] + Expansion(s')
  {
    ExpansionFrom(s, k);
    ExpansionNow(e);
    NoExpansion();
    hide *;
    if e.count == 1 {
      UsedUp(s, k, s');
    } else {
      CountedDown(s, k, Expected(e.callee, e.count - 1), s');
      Regroup([e.callee], Expansion([Expected(e.callee, e.count - 1)]), Expansion(s[k + 1..]));
    }
  }

  lemma NoExpansion()
    ensures Expansion([]) == []
  {
  }

  /** A call that changes the list takes exactly the first call the list still asks for. */
  lemma CalledTakesFirst(s: seq<Expected>, f: string)
    requires Called(s, f).Some? && forall i :: 0 <= i < |s| ==> s[i].count != 0
    ensures var s' := Called(s, f).value;
            && (forall i :: 0 <= i < |s'| ==> s'[i].count != 0)
            && Expansion(s) == (if s' == s then [] else [f]) + Expansion(s')
  {
    CountsStay(s, f);
    ScanSkips(s, f);
    hide Expansion, Skippable;
    var k := Scan(s, f);
    if s[k].count > -2 {
      FirstTaken(s, k, s[k], Called(s, f).value);
    }
  }

  lemma ExpansionNow(e: Expected)
    requires e.count != 0 && e.count > -2
    ensures Expansion([e]) == [e.callee] + Expansion(if e.count == 1 then [] else [Expected(e.callee, e.count - 1)])
  {
    ExpansionOne(e);
    if e.count == -1 {
      ExpansionOne(Expected(e.callee, -2));
    }
  }

  lemma ExpansionOne(e: Expected)
    ensures e.count <= -2 ==> Expansion([e]) == []
    ensures e.count == -1 || e.count == 1 ==> Expansion([e]) == [e.callee]
    ensures e.count > 1 ==> Expansion([e]) == [e.callee] + Expansion([Expected(e.callee, e.count - 1)])
  {
    assert e.count > 0 ==> Repeat(e.callee, e.count) == [e.callee] + Repeat(e.callee, e.count - 1);
    assert Repeat(e.callee, 0) == [];
  }

  /** On an accepted run, the calls that changed the list are what was declared, less what is left. */
  lemma {:induction false} ChangedPlusLeft(s: seq<Expected>, ops: seq<CallOp>)
    requires RunCalls(s, ops).ok && forall i :: 0 <= i < |s| ==> s[i].count != 0
    ensures var r := RunCalls(s, ops); r.changed + Expansion(r.list) == Expansion(s) + Expansion(Declared(ops))
    decreases |ops|
  {
    if ops != [] {
      match ops[0]
      case Expect(e) =>
        ChangedPlusLeft(s + [e], ops[1..]);
        ExpansionConcat(s, [e]);
        ExpansionConcat([e], Declared(ops[1..]));
        hide Expansion, Called;
        Regroup(Expansion(s), Expansion([e]), Expansion(Declared(ops[1..])));
      case Call(f) =>
        CalledTakesFirst(s, f);
        var s' := Called(s, f).value;
        ChangedPlusLeft(s', ops[1..]);
        assert Declared(ops) == Declared(ops[1..]);
        var b, r := if s' == s then [] else [f], RunCalls(s', ops[1..]);
        hide *;
        Reassociate(b, r.changed, Expansion(r.list), Expansion(s'), Expansion(Declared(ops)));
    }
  }

  lemma Reassociate(b: seq<string>, c: seq<string>, l: seq<string>, e: seq<string>, d: seq<string>)
    requires c + l == e + d
    ensures (b + c) + l == (b + e) + d
  {
    assert (b + c) + l == b + (c + l);
    assert (b + e) + d == b + (e + d);
  }

  lemma {:induction false} SweptToNothing(s: seq<Expected>)
    requires SweepCalls(s) == []
    ensures forall i :: 0 <= i < |s| ==> s[i].count <= -2
    decreases |s|
  {
    if s != [] { SweptToNothing(s[1..]); }
  }

  lemma {:induction false} SweptAway(s: seq<Expected>)
    requires forall i :: 0 <= i < |s| ==> s[i].count <= -2
    ensures SweepCalls(s) == []
    decreases |s|
  {
    if s != [] { SweptAway(s[1..]); }
  }

  /** On an accepted run that leaves nothing over, the calls that changed the list spell exactly
      the expansion of the declarations, in order, however calls and declarations interleave. */
  lemma ChangedSpellExpansion(ops: seq<CallOp>)
    requires RunCalls([], ops).ok && SweepCalls(RunCalls([], ops).list) == []
    ensures RunCalls([], ops).changed == Expansion(Declared(ops))
  {
    var r := RunCalls([], ops);
    ChangedPlusLeft([], ops);
    SweptToNothing(r.list);
    ExpansionSkipped(r.list);
    assert r.changed + [] == r.changed && Expansion([]) + Expansion(Declared(ops)) == Expansion(Declared(ops));
  }

  // ---- Declarations up front: the language of accepted traces

  function Calls(trace: seq<string>): seq<CallOp> {
    if trace == [] then [] else [Call(trace[0])] + Calls(trace[1..])
  }

  ghost predicate Accepts(declared: seq<Expected>, trace: seq<string>) {
    var r := RunCalls(declared, Calls(trace));
    r.ok && SweepCalls(r.list) == []
  }

  /** The documented meaning of a list of declarations: the calls come in the declared order, and
      between them come calls of functions that an earlier entry lets through any number of times. */
  ghost predicate InLanguage(declared: seq<Expected>, open: set<string>, trace: seq<string>)
    decreases |trace|, |declared|
  {
    if declared == [] then forall i :: 0 <= i < |trace| ==> trace[i] in open else
    var e, rest := declared[0], declared[1..];
    if e.count <= -2 then InLanguage(rest, open + {e.callee}, trace) else
    exists j :: 0 <= j < |trace| && NextAt(e.callee, open, trace, j) &&
      if e.count == -1 then InLanguage(rest, open + {e.callee}, trace[j + 1..])
      else if e.count == 1 then InLanguage(rest, open, trace[j + 1..])
      else InLanguage([Expected(e.callee, e.count - 1)] + rest, open, trace[j + 1..])
  }

  ghost predicate NextAt(f: string, open: set<string>, trace: seq<string>, j: nat)
    requires j < |trace|
  {
    trace[j] == f && forall i :: 0 <= i < j ==> trace[i] in open
  }

  /** No counted entry is for a function that an earlier entry lets through any number of times. */
  ghost predicate NoShadow(declared: seq<Expected>, open: set<string>) {
    if declared == [] then true else
    var e := declared[0];
    && (e.count >= -1 ==> e.callee !in open)
    && NoShadow(declared[1..], if e.count <= -1 then open + {e.callee} else open)
  }

  ghost function Names(s: seq<Expected>): set<string> {
    set i | 0 <= i < |s| :: s[i].callee
  }

  /** The state of a run is the entries that are open now, then the declarations still to come. */
  lemma {:induction false} AcceptsFrom(open: seq<Expected>, declared: seq<Expected>, trace: seq<string>)
    requires forall i :: 0 <= i < |open| ==> open[i].count <= -2
    requires forall i :: 0 <= i < |declared| ==> declared[i].count != 0
    ensures Accepts(open + declared, trace) <==>
            NoShadow(declared, Names(open)) && InLanguage(declared, Names(open), trace)
    decreases |trace|, |declared|
  {
    if declared == [] {
      assert open + declared == open;
      OnlyOpen(open, trace);
    } else if declared[0].count <= -2 {
      var open' := open + [declared[0]];
      assert open' + declared[1..] == open + declared;
      NamesAppend(open, declared[0]);
      AcceptsFrom(open', declared[1..], trace);
    } else if trace == [] {
      SweptPast(open, declared);
    } else if trace[0] in Names(open) {
      OpenCall(open, declared, trace[0]);
      AcceptsFrom(open, declared, trace[1..]);
      if declared[0].callee !in Names(open) {
        LanguageSkip(declared, Names(open), trace);
      }
    } else {
      NextCall(open, declared, trace);
    }
  }

  lemma NamesAppend(s: seq<Expected>, e: Expected)
    ensures Names(s + [e]) == Names(s) + {e.callee}
  {
    assert (s + [e])[|s|] == e;
    forall n | n in Names(s) ensures n in Names(s + [e]) {
      var i :| 0 <= i < |s| && s[i].callee == n;
      assert (s + [e])[i] == s[i];
    }
  }

  lemma {:induction false} OnlyOpen(open: seq<Expected>, trace: seq<string>)
    requires forall i :: 0 <= i < |open| ==> open[i].count <= -2
    ensures Accepts(open, trace) <==> forall i :: 0 <= i < |trace| ==> trace[i] in Names(open)
    decreases |trace|
  {
    hide Called, Names, Scan;
    if trace == [] {
      SweptAway(open);
    } else {
      OnlyOpen(open, trace[1..]);
      AllOpen(trace, Names(open));
      AcceptsCall(open, trace);
      CallOfOpen(open, trace[0]);
    }
  }

  lemma AllOpen(trace: seq<string>, open: set<string>)
    requires trace != []
    ensures (forall i :: 0 <= i < |trace| ==> trace[i] in open) <==>
            trace[0] in open && forall i :: 0 <= i < |trace[1..]| ==> trace[1..][i] in open
  {
    assert trace == [trace[0]] + trace[1..];
  }

  lemma AcceptsCall(declared: seq<Expected>, trace: seq<string>)
    requires trace != []
    ensures Accepts(declared, trace) <==>
            Called(declared, trace[0]).Some? && Accepts(Called(declared, trace[0]).value, trace[1..])
  {
    assert Calls(trace)[1..] == Calls(trace[1..]);
  }

  lemma CallOfOpen(open: seq<Expected>, f: string)
    requires forall i :: 0 <= i < |open| ==> open[i].count <= -2
    ensures Called(open, f) == if f in Names(open) then Some(open) else None
  {
    var k := Scan(open, f);
    if k < |open| {
      assert open[k].callee in Names(open);
    }
  }

  lemma SweptPast(open: seq<Expected>, declared: seq<Expected>)
    requires declared != [] && declared[0].count > -2
    ensures SweepCalls(open + declared) != []
  {
    assert (open + declared)[|open|] == declared[0];
    if SweepCalls(open + declared) == [] {
      SweptToNothing(open + declared);
    }
  }

  /** A call let through by an open entry changes nothing. */
  lemma OpenCall(open: seq<Expected>, declared: seq<Expected>, f: string)
    requires forall i :: 0 <= i < |open| ==> open[i].count <= -2
    requires f in Names(open)
    ensures Called(open + declared, f) == Some(open + declared)
  {
    var k := Scan(open + declared, f);
    var i :| 0 <= i < |open| && open[i].callee == f;
    assert (open + declared)[i].callee == f;
    assert k <= i && (open + declared)[k] == open[k];
  }

  /** If its first call is open, a trace may be read without it. */
  lemma LanguageSkip(declared: seq<Expected>, open: set<string>, trace: seq<string>)
    requires declared != [] && declared[0].count >= -1 && declared[0].count != 0 && trace != [] && trace[0] in open
    requires declared[0].callee !in open
    ensures InLanguage(declared, open, trace) <==> InLanguage(declared, open, trace[1..])
  {
    var f := declared[0].callee;
    forall j | 0 <= j < |trace| && NextAt(f, open, trace, j)
      ensures j > 0 && NextAt(f, open, trace[1..], j - 1) && trace[1..][j - 1 + 1..] == trace[j + 1..]
    {
    }
    forall j | 0 <= j < |trace[1..]| && NextAt(f, open, trace[1..], j)
      ensures NextAt(f, open, trace, j + 1) && trace[j + 1 + 1..] == trace[1..][j + 1..]
    {
    }
  }

  /** What is still to come after one call of the first, counted, declaration. */
  ghost function Rest(declared: seq<Expected>): seq<Expected>
    requires declared != []
  {
    if declared[0].count == 1 then declared[1..]
    else [Expected(declared[0].callee, declared[0].count - 1)] + declared[1..]
  }

  /** A call that is not open reaches the first declaration. */
  lemma CalledNext(open: seq<Expected>, declared: seq<Expected>, f: string)
    requires forall i :: 0 <= i < |open| ==> open[i].count <= -2
    requires declared != [] && declared[0].count >= -1 && f !in Names(open)
    ensures Called(open + declared, f) == if declared[0].callee == f then Some(open + Rest(declared)) else None
  {
    ScanBehind(open, declared, f);
    CalledFrom(open + declared, f, |open|);
    SpliceBehind(open, declared, Expected(f, declared[0].count - 1));
    hide Scan, Names, Called;
  }

  lemma CalledFrom(s: seq<Expected>, f: string, k: nat)
    requires k == Scan(s, f)
    ensures k < |s| && s[k].callee == f && s[k].count == 1 ==> Called(s, f) == Some(s[..k] + s[k + 1..])
    ensures k < |s| && s[k].callee == f && s[k].count > -2 && s[k].count != 1 ==>
              Called(s, f) == Some(s[k := Expected(f, s[k].count - 1)])
    ensures k < |s| && s[k].callee != f ==> Called(s, f) == None
  {
  }

  lemma ScanBehind(open: seq<Expected>, declared: seq<Expected>, f: string)
    requires forall i :: 0 <= i < |open| ==> open[i].count <= -2
    requires declared != [] && declared[0].count >= -1 && f !in Names(open)
    ensures Scan(open + declared, f) == |open|
  {
    var s := open + declared;
    assert forall i :: 0 <= i < |open| ==> s[i] == open[i] && open[i].callee in Names(open);
    assert s[|open|] == declared[0];
    hide Scan;
  }

  lemma SpliceBehind<A>(a: seq<A>, b: seq<A>, x: A)
    requires b != []
    ensures (a + b)[|a|] == b[0] && (a + b)[..|a|] + (a + b)[|a| + 1..] == a + b[1..]
    ensures (a + b)[|a| := x] == a + ([x] + b[1..])
  {
  }

  /** If its first call is not open, a trace must start with the first declaration. */
  lemma LanguageNext(declared: seq<Expected>, open: set<string>, trace: seq<string>)
    requires declared != [] && declared[0].count >= -1 && declared[0].count != 0 && trace != [] && trace[0] !in open
    ensures InLanguage(declared, open, trace) <==>
            declared[0].callee == trace[0] && InLanguage(Rest(declared), open, trace[1..])
  {
    var e := declared[0];
    assert forall j :: 0 < j < |trace| ==> !NextAt(e.callee, open, trace, j);
    assert NextAt(e.callee, open, trace, 0) <==> e.callee == trace[0];
    assert trace[0 + 1..] == trace[1..];
    assert e.count != 1 ==> Rest(declared)[1..] == declared[1..];
  }

  /** A call that no open entry lets through must be the next one declared. */
  lemma {:induction false} NextCall(open: seq<Expected>, declared: seq<Expected>, trace: seq<string>)
    requires forall i :: 0 <= i < |open| ==> open[i].count <= -2
    requires forall i :: 0 <= i < |declared| ==> declared[i].count != 0
    requires declared != [] && declared[0].count >= -1 && trace != [] && trace[0] !in Names(open)
    ensures Accepts(open + declared, trace) <==>
            NoShadow(declared, Names(open)) && InLanguage(declared, Names(open), trace)
    decreases |trace|, 0
  {
    CalledNext(open, declared, trace[0]);
    LanguageNext(declared, Names(open), trace);
    assert Calls(trace)[1..] == Calls(trace[1..]);
    if declared[0].callee == trace[0] {
      AcceptsFrom(open, Rest(declared), trace[1..]);
      assert NoShadow(declared, Names(open)) <==> NoShadow(Rest(declared), Names(open)) by {
        assert declared[0].count != 1 ==> Rest(declared)[1..] == declared[1..];
      }
      hide InLanguage, NoShadow;
    }
  }

  /** The accepted traces, exactly: those with the documented meaning, provided that no counted entry
      comes after one that lets the same function through any number of times. If one does, that
      earlier entry swallows its calls and every trace is rejected. */
  lemma AcceptedTraces(declared: seq<Expected>, trace: seq<string>)
    requires forall i :: 0 <= i < |declared| ==> declared[i].count != 0
    ensures Accepts(declared, trace) <==> NoShadow(declared, {}) && InLanguage(declared, {}, trace)
  {
    assert [] + declared == declared;
    AcceptsFrom([], declared, trace);
    assert Names([]) == {};
  }

  /** The documented meaning alone is not enough: f any number of times, then f once, rejects "f". */
  lemma ShadowedEntryRejects(f: string)
    ensures var declared := [Expected(f, -2), Expected(f, 1)];
            InLanguage(declared, {}, [f]) && !Accepts(declared, [f])
  {
    var declared := [Expected(f, -2), Expected(f, 1)];
    assert declared[1..] == [Expected(f, 1)] && declared[1..][1..] == [];
    assert NextAt(f, {} + {f}, [f], 0) && [f][0 + 1..] == [];
    assert InLanguage([], {} + {f}, [f][0 + 1..]);
    assert !NoShadow(declared, {});
    AcceptedTraces(declared, [f]);
  }

  /** With positive counts only, the one accepted trace is the expansion. */
  lemma {:induction false} PositiveTraces(declared: seq<Expected>, trace: seq<string>)
    requires forall i :: 0 <= i < |declared| ==> declared[i].count > 0
    ensures Accepts(declared, trace) <==> trace == Expansion(declared)
    decreases |trace|
  {
    if declared == [] {
      assert Names([]) == {};
      OnlyOpen([], trace);
    } else if trace == [] {
      assert [] + declared == declared;
      SweptPast([], declared);
      assert |Expansion(declared)| >= declared[0].count;
    } else {
      var f := trace[0];
      PositiveFirst(declared, f);
      AcceptsCall(declared, trace);
      hide Accepts, Called, Expansion, Scan;
      assert trace == [f] + trace[1..];
      if f == declared[0].callee {
        CalledTakesFirst(declared, f);
        PositiveStep(declared, f);
        PositiveTraces(Called(declared, f).value, trace[1..]);
      }
    }
  }

  lemma PositiveFirst(declared: seq<Expected>, f: string)
    requires declared != [] && declared[0].count > 0
    ensures Expansion(declared) != [] && Expansion(declared)[0] == declared[0].callee
    ensures Called(declared, f).Some? <==> f == declared[0].callee
  {
    assert Repeat(declared[0].callee, declared[0].count)[0] == declared[0].callee;
  }

  lemma PositiveStep(declared: seq<Expected>, f: string)
    requires declared != [] && declared[0].callee == f
    requires forall i :: 0 <= i < |declared| ==> declared[i].count > 0
    ensures Called(declared, f).Some? && Called(declared, f).value != declared
    ensures forall i :: 0 <= i < |Called(declared, f).value| ==> Called(declared, f).value[i].count > 0
  {
    var s' := Called(declared, f).value;
    if declared[0].count == 1 {
      assert |s'| != |declared|;
    } else {
      assert s'[0] != declared[0];
    }
  }
}
