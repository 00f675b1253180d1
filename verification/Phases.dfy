// One phase (a setup, test or teardown function) as a value: what its API calls do to the three
// expectation lists, and how it ends.
module Phases {
  import opened Wrappers
  import opened Expectations
  import opened MockRuns
  import opened CallOrder

  /** The three expectation lists. */
  datatype State = State(results: Store<Datum>, params: Store<Datum>, calls: seq<Expected>)

  /** The API calls of a run of a phase. */
  datatype Op =
    | WillReturn(callee: string, tag: Option<string>, value: int, count: int)
    | Mock(callee: string, wanted: Option<string>)
    | ExpectCheck(callee: string, param: string, accepts: int -> bool, count: int)
    | CheckExpected(callee: string, param: string, actual: int)
    | ExpectFunctionCall(callee: string, count: int)
    | FunctionCalled(callee: string)
    | Fail
    | Skip
    | Stop

  /** How a phase goes on after a call: the jumps out of it are explicit. */
  datatype End = Returns | Fails | Skips | Stops

  /** The stored type tag must be the wanted one, if one is wanted. */
  predicate TagMatches(d: Datum, wanted: Option<string>) {
    wanted.None? || (d.Returned? && d.tag == wanted)
  }

  predicate Accepted(d: Datum, actual: int) {
    d.Checked? && d.accepts(actual)
  }

  ghost predicate WellFormedState(st: State) {
    WellFormed(st.results, 1) && WellFormed(st.params, 2)
  }

  const Nothing := State(Symbols([]), Symbols([]), [])

  ghost function Step(st: State, op: Op): (r: (State, End))
    requires WellFormedState(st)
    ensures WellFormedState(r.0)
  {
    match op
    case WillReturn(f, tag, v, n) =>
      if n == 0 then (st, Fails) else
      AddShape(st.results, [f], Entry(Datum.Returned(tag, v), n));
      (st.(results := Add(st.results, [f], Entry(Datum.Returned(tag, v), n))), Returns)
    case Mock(f, wanted) =>
      GetShape(st.results, [f]);
      var g := Get(st.results, [f]);
      (st.(results := g.store), if g.rc != 0 && TagMatches(g.value.value, wanted) then Returns else Fails)
    case ExpectCheck(f, p, accepts, n) =>
      AddShape(st.params, [f, p], Entry(Checked(accepts), n));
      (st.(params := Add(st.params, [f, p], Entry(Checked(accepts), n))), Returns)
    case CheckExpected(f, p, v) =>
      GetShape(st.params, [f, p]);
      var g := Get(st.params, [f, p]);
      (st.(params := g.store), if g.rc != 0 && Accepted(g.value.value, v) then Returns else Fails)
    case ExpectFunctionCall(f, n) =>
      if n == 0 then (st, Fails) else (st.(calls := st.calls + [Expected(f, n)]), Returns)
    case FunctionCalled(f) =>
      var s := Called(st.calls, f);
      if s.Some? then (st.(calls := s.value), Returns) else (st, Fails)
    case Fail => (st, Fails)
    case Skip => (st, Skips)
    case Stop => (st, Stops)
  }

  /** The calls up to the one that jumps out of the phase, or all of them. */
  ghost function RunOps(st: State, ops: seq<Op>): (r: (State, End))
    requires WellFormedState(st)
    ensures WellFormedState(r.0)
    decreases |ops|
  {
    if ops == [] then (st, Returns) else
    var (st', end) := Step(st, ops[0]);
    if end == Returns then RunOps(st', ops[1..]) else (st', end)
  }

  /** The values that the mocks of a run are given, with the names of their functions. */
  ghost function Handed(st: State, ops: seq<Op>): seq<(seq<string>, Datum)>
    requires WellFormedState(st)
    decreases |ops|
  {
    if ops == [] then [] else
    var (st', end) := Step(st, ops[0]);
    if end != Returns then [] else HandedBy(st, ops[0]) + Handed(st', ops[1..])
  }

  ghost function HandedBy(st: State, op: Op): seq<(seq<string>, Datum)>
    requires WellFormedState(st) && Step(st, op).1 == Returns
  {
    if op.Mock? then
      GetShape(st.results, [op.callee]);
      [([op.callee], Get(st.results, [op.callee]).value.value)]
    else []
  }

  /** has_leftover_values. */
  ghost predicate HasLeftovers(st: State)
    requires WellFormedState(st)
  {
    SweptShape(st.results, 1);
    SweptShape(st.params, 2);
    Leftovers(Sweep(st.results)) > 0 || Leftovers(Sweep(st.params)) > 0 || SweepCalls(st.calls) != []
  }

  lemma SweptShape<V>(s: Store<V>, depth: nat)
    requires depth > 0 && WellFormed(s, depth)
    ensures WellFormed(Sweep(s), depth) && Sweep(s).Symbols?
  {
    var p := seq(depth, _ => "");
    SweepMeaning(s, p);
  }

  /** A function run as a phase: its API calls, the value it returns, and whether it leaves blocks
      allocated after the heap checkpoint. */
  datatype Body = Body(ops: seq<Op>, rc: int, leaks: bool)

  datatype Phase = Test(body: Body) | Setup(body: Body) | Teardown(body: Body) | Empty

  function OpsOf(ph: Phase): seq<Op> {
    if ph.Empty? then [] else ph.body.ops
  }

  /** cmocka_run_one_test_or_fixture: the return code, and whether skip() was called. */
  ghost function RunPhase(ph: Phase): (r: (int, bool)) {
    var (st, end) := RunOps(Nothing, OpsOf(ph));
    Verdict(ph, st, end)
  }

  /** What becomes of a phase whose calls left the lists as they are in st, and ended like that. */
  ghost function Verdict(ph: Phase, st: State, end: End): (r: (int, bool))
    requires WellFormedState(st)
  {
    match end
    case Returns =>
      if (ph.Test? || ph.Teardown?) && ph.body.leaks then (-1, false)
      else if HasLeftovers(st) then (-1, false)
      else (if ph.Setup? || ph.Teardown? then ph.body.rc else 0, false)
    case Fails => (-1, false)
    case Skips => (-1, true)
    case Stops => (if HasLeftovers(st) then -1 else 0, false)
  }

  // ---- When a phase that ran to its end has nothing left over

  // What a call does to each of the three lists, if anything.

  function ResultOp(op: Op): seq<MockRuns.Op<Datum>> {
    match op
    case WillReturn(f, tag, v, n) => [Declare([f], Entry(Datum.Returned(tag, v), n))]
    case Mock(f, _) => [Request([f])]
    case _ => []
  }

  function ParamOp(op: Op): seq<MockRuns.Op<Datum>> {
    match op
    case ExpectCheck(f, p, accepts, n) => [Declare([f, p], Entry(Checked(accepts), n))]
    case CheckExpected(f, p, _) => [Request([f, p])]
    case _ => []
  }

  function CallOpOf(op: Op): seq<CallOp> {
    match op
    case ExpectFunctionCall(f, n) => [Expect(Expected(f, n))]
    case FunctionCalled(f) => [Call(f)]
    case _ => []
  }

  function ResultOps(ops: seq<Op>): seq<MockRuns.Op<Datum>> {
    if ops == [] then [] else ResultOp(ops[0]) + ResultOps(ops[1..])
  }

  function ParamOps(ops: seq<Op>): seq<MockRuns.Op<Datum>> {
    if ops == [] then [] else ParamOp(ops[0]) + ParamOps(ops[1..])
  }

  function CallOps(ops: seq<Op>): seq<CallOp> {
    if ops == [] then [] else CallOpOf(ops[0]) + CallOps(ops[1..])
  }

  lemma {:induction false} OpsShape(ops: seq<Op>)
    ensures OpsAtDepth(ResultOps(ops), 1) && OpsAtDepth(ParamOps(ops), 2)
    decreases |ops|
  {
    if ops != [] { OpsShape(ops[1..]); }
  }

  /** The three lists run independently of each other. */
  lemma ListsIndependent(st: State, ops: seq<Op>)
    requires WellFormedState(st) && RunOps(st, ops).1 == Returns
    ensures OpsAtDepth(ResultOps(ops), 1) && OpsAtDepth(ParamOps(ops), 2)
    ensures var st' := RunOps(st, ops).0;
            && RunStore(st.results, 1, ResultOps(ops)) == Run(true, st'.results, Handed(st, ops))
            && RunStore(st.params, 2, ParamOps(ops)).ok && RunStore(st.params, 2, ParamOps(ops)).store == st'.params
            && RunCalls(st.calls, CallOps(ops)).ok && RunCalls(st.calls, CallOps(ops)).list == st'.calls
  {
    OpsShape(ops);
    ResultsAlone(st, ops);
    ParamsAlone(st, ops);
    CallsAlone(st, ops);
  }

  /** What mocks return, over a phase that runs to its end: lookup j of a function gets element j of
      the expansion of the values that were declared for that function before it. */
  lemma MocksInOrder(ops: seq<Op>, callee: string)
    requires RunOps(Nothing, ops).1 == Returns
    ensures OpsAtDepth(ResultOps(ops), 1)
    ensures GetsDue(Project(ResultOps(ops), [callee]), ProjectResults(Handed(Nothing, ops), [callee]))
  {
    ListsIndependent(Nothing, ops);
    assert EmptyStore<Datum>(1) == Nothing.results;
    hide *;
    StoreFifo(1, ResultOps(ops));
    assert |[callee]| == 1;
  }

  lemma RunOnwards(st: State, ops: seq<Op>)
    requires WellFormedState(st) && ops != [] && RunOps(st, ops).1 == Returns
    ensures Step(st, ops[0]).1 == Returns && RunOps(Step(st, ops[0]).0, ops[1..]) == RunOps(st, ops)
  {
  }

  lemma RunNothing(st: State)
    requires WellFormedState(st)
    ensures RunOps(st, []) == (st, Returns) && ResultOps([]) == [] && ParamOps([]) == [] && Handed(st, []) == []
    ensures CallOps([]) == [] && RunCalls(st.calls, []) == CallRun(true, st.calls, [])
    ensures RunStore(st.results, 1, []) == Run(true, st.results, []) &&
            RunStore(st.params, 2, []) == Run(true, st.params, [])
  {
  }

  /** What a call that returns does to the results. */
  lemma ResultsAfter(st: State, op: Op)
    requires WellFormedState(st) && Step(st, op).1 == Returns
    ensures op.WillReturn? ==>
              Step(st, op).0.results == Add(st.results, [op.callee], Entry(Datum.Returned(op.tag, op.value), op.count))
    ensures op.Mock? ==>
              && Get(st.results, [op.callee]).rc != 0
              && Step(st, op).0.results == Get(st.results, [op.callee]).store
    ensures ResultOp(op) == [] ==> Step(st, op).0.results == st.results
  {
    hide Add, Get, WellFormed, Called, TagMatches, Accepted;
  }

  /** What a call that returns does to the parameter checks. */
  lemma ParamsAfter(st: State, op: Op)
    requires WellFormedState(st) && Step(st, op).1 == Returns
    ensures op.ExpectCheck? ==>
              Step(st, op).0.params == Add(st.params, [op.callee, op.param], Entry(Checked(op.accepts), op.count))
    ensures op.CheckExpected? ==> && Get(st.params, [op.callee, op.param]).rc != 0
                                  && Step(st, op).0.params == Get(st.params, [op.callee, op.param]).store
    ensures ParamOp(op) == [] ==> Step(st, op).0.params == st.params
  {
    hide Add, Get, WellFormed, Called, TagMatches, Accepted;
  }

  lemma {:induction false} ResultsAlone(st: State, ops: seq<Op>)
    requires WellFormedState(st) && RunOps(st, ops).1 == Returns && OpsAtDepth(ResultOps(ops), 1)
    ensures RunStore(st.results, 1, ResultOps(ops)) == Run(true, RunOps(st, ops).0.results, Handed(st, ops))
    decreases |ops|
  {
    hide RunOps, RunStore, Step, WellFormed, Add, Get, Called;
    if ops == [] {
      RunNothing(st);
    } else {
      var op, rest := ops[0], ops[1..];
      RunOnwards(st, ops);
      OpsShape(rest);
      ResultsAlone(Step(st, op).0, rest);
      ResultsAfter(st, op);
      assert Handed(st, ops) == HandedBy(st, op) + Handed(Step(st, op).0, rest);
      if op.WillReturn? {
        RunDeclare(st.results, 1, [op.callee], Entry(Datum.Returned(op.tag, op.value), op.count), ResultOps(rest));
      } else if op.Mock? {
        RunRequest(st.results, 1, [op.callee], Get(st.results, [op.callee]), ResultOps(rest));
      } else {
        assert ResultOps(ops) == ResultOps(rest);
      }
    }
  }

  lemma {:induction false} ParamsAlone(st: State, ops: seq<Op>)
    requires WellFormedState(st) && RunOps(st, ops).1 == Returns && OpsAtDepth(ParamOps(ops), 2)
    ensures var r := RunStore(st.params, 2, ParamOps(ops)); r.ok && r.store == RunOps(st, ops).0.params
    decreases |ops|
  {
    hide RunOps, RunStore, Step, WellFormed, Add, Get, Called;
    if ops == [] {
      RunNothing(st);
    } else {
      var op, rest := ops[0], ops[1..];
      RunOnwards(st, ops);
      OpsShape(rest);
      ParamsAlone(Step(st, op).0, rest);
      ParamsAfter(st, op);
      if op.ExpectCheck? {
        RunDeclare(st.params, 2, [op.callee, op.param], Entry(Checked(op.accepts), op.count), ParamOps(rest));
      } else if op.CheckExpected? {
        RunRequest(st.params, 2, [op.callee, op.param], Get(st.params, [op.callee, op.param]), ParamOps(rest));
      } else {
        assert ParamOps(ops) == ParamOps(rest);
      }
    }
  }

  lemma {:induction false} CallsAlone(st: State, ops: seq<Op>)
    requires WellFormedState(st) && RunOps(st, ops).1 == Returns
    ensures var r := RunCalls(st.calls, CallOps(ops)); r.ok && r.list == RunOps(st, ops).0.calls
    decreases |ops|
  {
    hide RunOps, RunCalls, Step, WellFormed, Called, CallOps;
    if ops == [] {
      RunNothing(st);
    } else {
      RunOnwards(st, ops);
      CallsAlone(Step(st, ops[0]).0, ops[1..]);
      CallsAfter(st, ops[0]);
      CallsCons(ops);
      if CallOpOf(ops[0]) != [] {
        NextCall(st.calls, CallOps(ops));
      }
    }
  }

  /** What a call that returns does to the expected calls. */
  lemma CallsAfter(st: State, op: Op)
    requires WellFormedState(st) && Step(st, op).1 == Returns
    ensures op.ExpectFunctionCall? ==>
              op.count != 0 && Step(st, op).0.calls == st.calls + [Expected(op.callee, op.count)]
    ensures op.FunctionCalled? ==> Called(st.calls, op.callee) == Some(Step(st, op).0.calls)
    ensures CallOpOf(op) == [] ==> Step(st, op).0.calls == st.calls
  {
    hide Add, Get, WellFormed, Called, TagMatches, Accepted;
  }

  /** The first step of a run of the expected calls. */
  lemma NextCall(s: seq<Expected>, ops: seq<CallOp>)
    requires ops != []
    ensures ops[0].Expect? && ops[0].entry.count != 0 ==>
              var r := RunCalls(s + [ops[0].entry], ops[1..]);
              RunCalls(s, ops).ok == r.ok && RunCalls(s, ops).list == r.list
    ensures ops[0].Call? && Called(s, ops[0].callee).Some? ==>
              var r := RunCalls(Called(s, ops[0].callee).value, ops[1..]);
              RunCalls(s, ops).ok == r.ok && RunCalls(s, ops).list == r.list
  {
  }

  lemma CallsCons(ops: seq<Op>)
    requires ops != []
    ensures ops[0].ExpectFunctionCall? || ops[0].FunctionCalled? ==>
              CallOps(ops) != [] && CallOps(ops)[0] == CallOpOf(ops[0])[0] && CallOps(ops)[1..] == CallOps(ops[1..])
    ensures !ops[0].ExpectFunctionCall? && !ops[0].FunctionCalled? ==> CallOps(ops) == CallOps(ops[1..])
  {
  }

  // ---- When a phase runs to its end

  /** The tags that the mocks of a run ask for, and the values that are checked. */
  function Wanted(ops: seq<Op>): seq<Option<string>> {
    if ops == [] then [] else (if ops[0].Mock? then [ops[0].wanted] else []) + Wanted(ops[1..])
  }

  function Actual(ops: seq<Op>): seq<int> {
    if ops == [] then [] else (if ops[0].CheckExpected? then [ops[0].actual] else []) + Actual(ops[1..])
  }

  /** Each value handed out has the tag that was asked for; each check accepts the value it is given. */
  predicate TagsMatch(results: seq<(seq<string>, Datum)>, wanted: seq<Option<string>>) {
    results == [] || wanted == [] || (TagMatches(results[0].1, wanted[0]) && TagsMatch(results[1..], wanted[1..]))
  }

  predicate AllAccepted(results: seq<(seq<string>, Datum)>, actual: seq<int>) {
    results == [] || actual == [] || (Accepted(results[0].1, actual[0]) && AllAccepted(results[1..], actual[1..]))
  }

  predicate Jumps(op: Op) {
    op.Fail? || op.Skip? || op.Stop? || (op.WillReturn? && op.count == 0)
  }

  predicate NoJump(ops: seq<Op>) {
    forall i :: 0 <= i < |ops| ==> !Jumps(ops[i])
  }

  lemma NoJumpCons(ops: seq<Op>)
    requires ops != []
    ensures NoJump(ops) <==> !Jumps(ops[0]) && NoJump(ops[1..])
  {
    assert ops == [ops[0]] + ops[1..];
  }

  // What lets each of the three lists take a run to its end.

  ghost predicate ResultsAgree(s: Store<Datum>, ops: seq<Op>)
    requires WellFormed(s, 1)
  {
    OpsShape(ops);
    var run := RunStore(s, 1, ResultOps(ops));
    run.ok && TagsMatch(run.results, Wanted(ops))
  }

  ghost predicate ParamsAgree(s: Store<Datum>, ops: seq<Op>)
    requires WellFormed(s, 2)
  {
    OpsShape(ops);
    var run := RunStore(s, 2, ParamOps(ops));
    run.ok && AllAccepted(run.results, Actual(ops))
  }

  predicate CallsAgree(s: seq<Expected>, ops: seq<Op>) {
    RunCalls(s, CallOps(ops)).ok
  }

  lemma ResultsAdded(s: Store<Datum>, ops: seq<Op>, e: Entry<Datum>)
    requires WellFormed(s, 1) && ops != [] && ops[0].WillReturn?
    requires e == Entry(Datum.Returned(ops[0].tag, ops[0].value), ops[0].count)
    ensures WellFormed(Add(s, [ops[0].callee], e), 1)
    ensures ResultsAgree(s, ops) <==> ResultsAgree(Add(s, [ops[0].callee], e), ops[1..])
  {
    hide WellFormed, Add, RunStore;
    OpsShape(ops[1..]);
    RunDeclare(s, 1, [ops[0].callee], e, ResultOps(ops[1..]));
    assert Wanted(ops) == Wanted(ops[1..]);
  }

  lemma ResultsTaken(s: Store<Datum>, ops: seq<Op>, g: Got<Datum>)
    requires WellFormed(s, 1) && ops != [] && ops[0].Mock? && g == Get(s, [ops[0].callee])
    ensures WellFormed(g.store, 1) && (g.rc != 0 ==> g.value.Some?)
    ensures ResultsAgree(s, ops) <==>
            g.rc != 0 && TagMatches(g.value.value, ops[0].wanted) && ResultsAgree(g.store, ops[1..])
  {
    hide WellFormed, Get, RunStore, TagMatches;
    OpsShape(ops[1..]);
    RunRequest(s, 1, [ops[0].callee], g, ResultOps(ops[1..]));
    assert Wanted(ops)[1..] == Wanted(ops[1..]);
  }

  lemma ParamsAdded(s: Store<Datum>, ops: seq<Op>, e: Entry<Datum>)
    requires WellFormed(s, 2) && ops != [] && ops[0].ExpectCheck? && e == Entry(Checked(ops[0].accepts), ops[0].count)
    ensures WellFormed(Add(s, [ops[0].callee, ops[0].param], e), 2)
    ensures ParamsAgree(s, ops) <==> ParamsAgree(Add(s, [ops[0].callee, ops[0].param], e), ops[1..])
  {
    hide WellFormed, Add, RunStore;
    OpsShape(ops[1..]);
    RunDeclare(s, 2, [ops[0].callee, ops[0].param], e, ParamOps(ops[1..]));
    assert Actual(ops) == Actual(ops[1..]);
  }

  lemma ParamsTaken(s: Store<Datum>, ops: seq<Op>, g: Got<Datum>)
    requires WellFormed(s, 2) && ops != [] && ops[0].CheckExpected? && g == Get(s, [ops[0].callee, ops[0].param])
    ensures WellFormed(g.store, 2) && (g.rc != 0 ==> g.value.Some?)
    ensures ParamsAgree(s, ops) <==>
            g.rc != 0 && Accepted(g.value.value, ops[0].actual) && ParamsAgree(g.store, ops[1..])
  {
    hide WellFormed, Get, RunStore, Accepted;
    OpsShape(ops[1..]);
    RunRequest(s, 2, [ops[0].callee, ops[0].param], g, ParamOps(ops[1..]));
    assert Actual(ops)[1..] == Actual(ops[1..]);
  }

  // A call that is not about a list makes no difference to it.

  lemma OtherResults(s: Store<Datum>, ops: seq<Op>)
    requires WellFormed(s, 1) && ops != [] && ResultOp(ops[0]) == []
    ensures ResultsAgree(s, ops) <==> ResultsAgree(s, ops[1..])
  {
    hide WellFormed, RunStore;
    assert ResultOps(ops) == ResultOps(ops[1..]) && Wanted(ops) == Wanted(ops[1..]);
  }

  lemma OtherParams(s: Store<Datum>, ops: seq<Op>)
    requires WellFormed(s, 2) && ops != [] && ParamOp(ops[0]) == []
    ensures ParamsAgree(s, ops) <==> ParamsAgree(s, ops[1..])
  {
    hide WellFormed, RunStore;
    assert ParamOps(ops) == ParamOps(ops[1..]) && Actual(ops) == Actual(ops[1..]);
  }

  lemma CallsStep(s: seq<Expected>, ops: seq<Op>)
    requires ops != []
    ensures ops[0].ExpectFunctionCall? ==>
              (CallsAgree(s, ops) <==>
                (ops[0].count != 0 && CallsAgree(s + [Expected(ops[0].callee, ops[0].count)], ops[1..])))
    ensures ops[0].FunctionCalled? ==>
              (CallsAgree(s, ops) <==>
                (Called(s, ops[0].callee).Some? && CallsAgree(Called(s, ops[0].callee).value, ops[1..])))
    ensures CallOpOf(ops[0]) == [] ==> (CallsAgree(s, ops) <==> CallsAgree(s, ops[1..]))
  {
    CallsCons(ops);
    hide Called, CallOps;
  }

  /** A phase runs to its end exactly if it calls nothing that jumps, every lookup finds a value, of
      the right type, that accepts what it is given, and every call comes when it is expected. */
  lemma {:induction false} ReturnsExactly(st: State, ops: seq<Op>)
    requires WellFormedState(st)
    ensures RunOps(st, ops).1 == Returns <==>
            NoJump(ops) && ResultsAgree(st.results, ops) && ParamsAgree(st.params, ops) && CallsAgree(st.calls, ops)
    decreases |ops|
  {
    hide *;
    RunUnwound(st, ops);
    if ops != [] {
      StepAgrees(st, ops);
      if Step(st, ops[0]).1 == Returns {
        RunUnwound(Step(st, ops[0]).0, ops[1..]);
        ReturnsExactly(Step(st, ops[0]).0, ops[1..]);
      }
    }
  }

  lemma RunUnwound(st: State, ops: seq<Op>)
    requires WellFormedState(st)
    ensures ops == [] ==> RunOps(st, ops).1 == Returns && Agrees(st, ops)
    ensures ops != [] ==> WellFormedState(Step(st, ops[0]).0)
    ensures ops != [] ==> (RunOps(st, ops).1 == Returns <==>
                           Step(st, ops[0]).1 == Returns && RunOps(Step(st, ops[0]).0, ops[1..]).1 == Returns)
    ensures Agrees(st, ops) <==>
            NoJump(ops) && ResultsAgree(st.results, ops) && ParamsAgree(st.params, ops) && CallsAgree(st.calls, ops)
  {
  }

  ghost predicate Agrees(st: State, ops: seq<Op>)
    requires WellFormedState(st)
  {
    NoJump(ops) && ResultsAgree(st.results, ops) && ParamsAgree(st.params, ops) && CallsAgree(st.calls, ops)
  }

  lemma StepAgrees(st: State, ops: seq<Op>)
    requires WellFormedState(st) && ops != []
    ensures Agrees(st, ops) <==> Step(st, ops[0]).1 == Returns && Agrees(Step(st, ops[0]).0, ops[1..])
  {
    hide NoJump, ResultsAgree, ParamsAgree, CallsAgree, Add, Get, WellFormed, TagMatches, Accepted, Called;
    NoJumpCons(ops);
    CallsStep(st.calls, ops);
    if ResultOp(ops[0]) == [] {
      OtherResults(st.results, ops);
    }
    if ParamOp(ops[0]) == [] {
      OtherParams(st.params, ops);
    }
    match ops[0] {
      case WillReturn(f, tag, v, n) => ResultsAdded(st.results, ops, Entry(Datum.Returned(tag, v), n));
      case Mock(f, _) => ResultsTaken(st.results, ops, Get(st.results, [f]));
      case ExpectCheck(f, p, accepts, n) => ParamsAdded(st.params, ops, Entry(Checked(accepts), n));
      case CheckExpected(f, p, _) => ParamsTaken(st.params, ops, Get(st.params, [f, p]));
      case _ =>
    }
  }

  /** The counts declared for a path were met by the lookups on it. */
  ghost predicate Met(ops: seq<MockRuns.Op<Datum>>, path: seq<string>) {
    Satisfied(Puts(Project(ops, path)), Uses(Project(ops, path)))
  }

  /** A phase that ran to its end has nothing left over exactly when the counts of every mocked
      function and of every checked parameter were met and no expected call is missing. */
  lemma NothingLeftOver(ops: seq<Op>)
    requires RunOps(Nothing, ops).1 == Returns
    ensures !HasLeftovers(RunOps(Nothing, ops).0) <==>
            && (forall p: seq<string> :: |p| == 1 ==> Met(ResultOps(ops), p))
            && (forall p: seq<string> :: |p| == 2 ==> Met(ParamOps(ops), p))
            && SweepCalls(RunCalls([], CallOps(ops)).list) == []
  {
    ListsIndependent(Nothing, ops);
    assert EmptyStore<Datum>(1) == Symbols([]) && EmptyStore<Datum>(2) == Symbols([]);
    WholeRunVerdict(1, ResultOps(ops));
    WholeRunVerdict(2, ParamOps(ops));
  }

  /** The position of the first call of stop(), |ops| if there is none. */
  function FirstStop(ops: seq<Op>): (k: nat)
    ensures k <= |ops| && (k < |ops| ==> ops[k].Stop?)
    ensures forall i :: 0 <= i < k ==> !ops[i].Stop?
  {
    if ops == [] || ops[0].Stop? then 0 else 1 + FirstStop(ops[1..])
  }

  /** A body stops exactly if it runs to its first call of stop(). */
  lemma {:induction false} StopsExactly(st: State, ops: seq<Op>)
    requires WellFormedState(st)
    ensures var k := FirstStop(ops);
            && (RunOps(st, ops).1 == Stops <==> k < |ops| && RunOps(st, ops[..k]).1 == Returns)
            && (RunOps(st, ops).1 == Returns ==> k == |ops|)
            && (RunOps(st, ops).1 in {Returns, Stops} ==> RunOps(st, ops).0 == RunOps(st, ops[..k]).0)
    decreases |ops|
  {
    var k := FirstStop(ops);
    if ops != [] && k > 0 {
      assert ops[..k][0] == ops[0] && ops[..k][1..] == ops[1..][..k - 1];
      if Step(st, ops[0]).1 == Returns {
        StopsExactly(Step(st, ops[0]).0, ops[1..]);
      }
    }
  }

  /** What a test does before its first call of stop(). */
  function UntilStop(ops: seq<Op>): seq<Op> {
    ops[..FirstStop(ops)]
  }

  /** Calls that do all that was declared, in terms of the calls alone: no jump, every lookup served as
      asked for, every declared count met, and no expected call missing. */
  ghost predicate AllMet(ops: seq<Op>) {
    && NoJump(ops)
    && ResultsAgree(Symbols([]), ops) && ParamsAgree(Symbols([]), ops) && CallsAgree([], ops)
    && (forall p: seq<string> :: |p| == 1 ==> Met(ResultOps(ops), p))
    && (forall p: seq<string> :: |p| == 2 ==> Met(ParamOps(ops), p))
    && SweepCalls(RunCalls([], CallOps(ops)).list) == []
  }

  /** What it takes for a test to pass: what it does before its first call of stop() does all that was
      declared; and if it does not stop, nothing is leaked. */
  lemma PassesExactly(b: Body)
    ensures var ops := UntilStop(b.ops);
            RunPhase(Test(b)).0 == 0 <==> AllMet(ops) && (ops == b.ops ==> !b.leaks)
  {
    hide AllMet, RunPhase, RunOps, HasLeftovers, UntilStop;
    StoppedPhase(Test(b));
    AllMetIs(UntilStop(b.ops));
  }

  /** For a setup to succeed: the same, except that nothing is said of leaks; and if it does not stop, it
      must return 0. */
  lemma SetupExactly(b: Body)
    ensures var ops := UntilStop(b.ops);
            RunPhase(Setup(b)).0 == 0 <==> AllMet(ops) && (ops == b.ops ==> b.rc == 0)
  {
    hide AllMet, RunPhase, RunOps, HasLeftovers, UntilStop;
    StoppedPhase(Setup(b));
    AllMetIs(UntilStop(b.ops));
  }

  /** For a teardown, both. */
  lemma TeardownExactly(b: Body)
    ensures var ops := UntilStop(b.ops);
            RunPhase(Teardown(b)).0 == 0 <==> AllMet(ops) && (ops == b.ops ==> b.rc == 0 && !b.leaks)
  {
    hide AllMet, RunPhase, RunOps, HasLeftovers, UntilStop;
    StoppedPhase(Teardown(b));
    AllMetIs(UntilStop(b.ops));
  }

  /** Calls that do all that was declared are those that run to their end and leave nothing over. */
  lemma AllMetIs(ops: seq<Op>)
    ensures AllMet(ops) <==> RunOps(Nothing, ops).1 == Returns && !HasLeftovers(RunOps(Nothing, ops).0)
  {
    hide RunOps, NoJump, ResultsAgree, ParamsAgree, CallsAgree, HasLeftovers, Met, SweepCalls, RunCalls;
    ReturnsExactly(Nothing, ops);
    if RunOps(Nothing, ops).1 == Returns {
      NothingLeftOver(ops);
    }
  }

  /** A phase that does not jump is as good as what it does before its first call of stop(). */
  lemma StoppedPhase(ph: Phase)
    requires !ph.Empty?
    ensures var ops := UntilStop(ph.body.ops);
            RunPhase(ph).0 == 0 <==>
            && (ops == ph.body.ops ==> (ph.Test? || ph.body.rc == 0) && (ph.Setup? || !ph.body.leaks))
            && RunOps(Nothing, ops).1 == Returns && !HasLeftovers(RunOps(Nothing, ops).0)
  {
    var b := ph.body;
    StopsExactly(Nothing, b.ops);
    assert UntilStop(b.ops) == b.ops <==> FirstStop(b.ops) == |b.ops|;
    hide RunOps, HasLeftovers;
  }

  /** The calls come to one of skip(), with no jump before it. */
  ghost predicate ReachesSkip(st: State, ops: seq<Op>)
    requires WellFormedState(st)
  {
    exists k :: 0 <= k < |ops| && ops[k].Skip? && RunOps(st, ops[..k]).1 == Returns
  }

  /** skip() is reported exactly if it is reached, and then the phase fails. */
  lemma SkipsExactly(ph: Phase)
    requires !ph.Empty?
    ensures RunPhase(ph).1 <==> ReachesSkip(Nothing, ph.body.ops)
    ensures RunPhase(ph).1 ==> RunPhase(ph).0 == -1
  {
    SkipEnds(Nothing, ph.body.ops);
    hide RunOps, HasLeftovers, ReachesSkip;
  }

  lemma {:induction false} SkipEnds(st: State, ops: seq<Op>)
    requires WellFormedState(st)
    ensures RunOps(st, ops).1 == Skips <==> ReachesSkip(st, ops)
    decreases |ops|
  {
    if ops != [] {
      var st', end := Step(st, ops[0]).0, Step(st, ops[0]).1;
      OnlySkipSkips(st, ops[0]);
      assert ops[..0] == [];
      RunNothing(st);
      FirstThen(st, ops);
      hide Step;
      if end == Returns {
        SkipEnds(st', ops[1..]);
        SkipLater(st, ops);
      } else if ReachesSkip(st, ops) {
        var k :| 0 <= k < |ops| && ops[k].Skip? && RunOps(st, ops[..k]).1 == Returns;
        assert k == 0;
      }
    }
  }

  lemma OnlySkipSkips(st: State, op: Op)
    requires WellFormedState(st)
    ensures Step(st, op).1 == Skips <==> op.Skip?
  {
    hide Add, Get, WellFormed, Called;
  }

  /** A run cut off somewhere behind its first call. */
  lemma FirstThen(st: State, ops: seq<Op>)
    requires WellFormedState(st) && ops != []
    ensures WellFormedState(Step(st, ops[0]).0)
    ensures forall k :: 0 < k <= |ops| ==>
              RunOps(st, ops[..k]).1 == if Step(st, ops[0]).1 == Returns
                                        then RunOps(Step(st, ops[0]).0, ops[1..][..k - 1]).1 else Step(st, ops[0]).1
  {
    hide Step;
    forall k | 0 < k <= |ops|
      ensures ops[..k][0] == ops[0] && ops[..k][1..] == ops[1..][..k - 1]
    {
    }
  }

  lemma SkipLater(st: State, ops: seq<Op>)
    requires WellFormedState(st) && ops != [] && Step(st, ops[0]).1 == Returns && !ops[0].Skip?
    ensures ReachesSkip(st, ops) <==> ReachesSkip(Step(st, ops[0]).0, ops[1..])
  {
    FirstThen(st, ops);
    hide Step, RunOps;
    var st', rest := Step(st, ops[0]).0, ops[1..];
    if ReachesSkip(st, ops) {
      var k :| 0 <= k < |ops| && ops[k].Skip? && RunOps(st, ops[..k]).1 == Returns;
      assert rest[k - 1] == ops[k] && RunOps(st', rest[..k - 1]).1 == Returns;
    }
    if ReachesSkip(st', rest) {
      var k :| 0 <= k < |rest| && rest[k].Skip? && RunOps(st', rest[..k]).1 == Returns;
      assert ops[k + 1] == rest[k] && RunOps(st, ops[..k + 1]).1 == Returns;
    }
  }

  /** A call that makes a run fail, wherever it stands. */
  predicate Failing(op: Op) {
    op.Fail? || op.Skip? || ((op.WillReturn? || op.ExpectFunctionCall?) && op.count == 0)
  }

  /** A run that comes to its end, or to its first call of stop(), has had none of those. */
  lemma {:induction false} NoneFailing(st: State, ops: seq<Op>, k: nat)
    requires WellFormedState(st) && k < |ops| && Failing(ops[k]) && forall i :: 0 <= i < k ==> !ops[i].Stop?
    ensures RunOps(st, ops).1 in {Fails, Skips}
    decreases |ops|
  {
    hide Add, Get, WellFormed, Called;
    if k > 0 && Step(st, ops[0]).1 == Returns {
      NoneFailing(Step(st, ops[0]).0, ops[1..], k - 1);
    }
  }

  /** A phase with one of them, and no call of stop() before it, does not succeed. */
  lemma FailureFails(ph: Phase, k: nat)
    requires k < |OpsOf(ph)| && Failing(OpsOf(ph)[k]) && forall i :: 0 <= i < k ==> !OpsOf(ph)[i].Stop?
    ensures RunPhase(ph).0 == -1
  {
    NoneFailing(Nothing, OpsOf(ph), k);
    hide RunOps, HasLeftovers;
  }

  // ---- What a check is given, and what a mock returns

  /** The declarations and checks of one parameter, in a queue of the check functions themselves. */
  function CheckOps(ops: seq<Op>, f: string, p: string): seq<QueueOp<int -> bool>> {
    if ops == [] then [] else CheckOp(ops[0], f, p) + CheckOps(ops[1..], f, p)
  }

  function CheckOp(op: Op, f: string, p: string): seq<QueueOp<int -> bool>> {
    match op
    case ExpectCheck(f', p', accepts, n) => if f' == f && p' == p then [Put(Entry(accepts, n))] else []
    case CheckExpected(f', p', _) => if f' == f && p' == p then [Use] else []
    case _ => []
  }

  /** The values that are checked for one parameter. */
  function ValuesFor(ops: seq<Op>, f: string, p: string): seq<int> {
    if ops == [] then [] else
    (if ops[0].CheckExpected? && ops[0].callee == f && ops[0].param == p then [ops[0].actual] else [])
    + ValuesFor(ops[1..], f, p)
  }

  /** The check functions in a queue of records. */
  function ChecksIn(q: seq<Entry<Datum>>): seq<Entry<int -> bool>> {
    seq(|q|, i requires 0 <= i < |q| =>
      Entry(if q[i].value.Checked? then q[i].value.accepts else (_ => false), q[i].count))
  }

  /** What a call that returns does to the checks of one parameter. A check that is used has accepted
      the value it was given. */
  lemma CheckStep(st: State, op: Op, f: string, p: string)
    requires WellFormedState(st) && Step(st, op).1 == Returns
    ensures var q, q' := Lookup(st.params, [f, p]), Lookup(Step(st, op).0.params, [f, p]);
            if op.ExpectCheck? && op.callee == f && op.param == p then
              q' == q + [Entry(Checked(op.accepts), op.count)]
            else if op.CheckExpected? && op.callee == f && op.param == p then
              q != [] && q[0].count != 0 && q' == Consume(q) && q[0].value.Checked? && q[0].value.accepts(op.actual)
            else q' == q
  {
    hide Add, Get, WellFormed, Lookup, Called;
    if op.ExpectCheck? {
      AddMeaning(st.params, [op.callee, op.param], Entry(Checked(op.accepts), op.count), [f, p]);
    } else if op.CheckExpected? {
      GetShape(st.params, [op.callee, op.param]);
      GetMeaning(st.params, [op.callee, op.param], [f, p]);
    }
  }

  /** Value j is accepted by element j of the expansion of the checks that were declared before it. */
  ghost predicate AllHold(q: seq<Entry<int -> bool>>, qops: seq<QueueOp<int -> bool>>, values: seq<int>) {
    && |values| == Uses(qops)
    && forall j :: 0 <= j < Uses(qops) ==> Due(q, qops, j).Some? && Due(q, qops, j).value(values[j])
  }

  lemma HoldPut(q: seq<Entry<int -> bool>>, qops: seq<QueueOp<int -> bool>>, values: seq<int>)
    requires qops != [] && qops[0].Put? && AllHold(q + [qops[0].entry], qops[1..], values)
    ensures AllHold(q, qops, values)
  {
    hide Due;
    forall j | 0 <= j < Uses(qops) ensures Due(q, qops, j) == Due(q + [qops[0].entry], qops[1..], j) {
      DuePut(q, qops, j);
    }
  }

  lemma HoldUse(q: seq<Entry<int -> bool>>, qops: seq<QueueOp<int -> bool>>, value: int, values: seq<int>)
    requires qops != [] && qops[0].Use? && q != [] && q[0].count != 0 && q[0].value(value)
    requires AllHold(Consume(q), qops[1..], values)
    ensures AllHold(q, qops, [value] + values)
  {
    hide Due, Consume;
    forall j | 0 <= j < Uses(qops)
      ensures Due(q, qops, j) == if j == 0 then Some(q[0].value) else Due(Consume(q), qops[1..], j - 1)
    {
      if j == 0 { DueFirst(q, qops); } else { DueUse(q, qops, j); }
    }
  }

  /** In a phase that runs to its end, every check accepts its value: value j for a parameter is given to
      element j of the expansion of the checks that were declared for that parameter before it. */
  lemma {:induction false} ChecksHold(st: State, ops: seq<Op>, f: string, p: string)
    requires WellFormedState(st) && RunOps(st, ops).1 == Returns
    ensures AllHold(ChecksIn(Lookup(st.params, [f, p])), CheckOps(ops, f, p), ValuesFor(ops, f, p))
    decreases |ops|
  {
    hide *;
    PathOfTwo(st, f, p);
    if ops == [] {
      NoChecks(ChecksIn(Lookup(st.params, [f, p])), f, p);
    } else {
      var op, rest := ops[0], ops[1..];
      RunOnwards(st, ops);
      CheckStep(st, op, f, p);
      PathOfTwo(Step(st, op).0, f, p);
      ChecksHold(Step(st, op).0, rest, f, p);
      CheckOpsNext(ops, f, p);
      var q, qops := ChecksIn(Lookup(st.params, [f, p])), CheckOps(ops, f, p);
      if op.ExpectCheck? && op.callee == f && op.param == p {
        ChecksAppend(Lookup(st.params, [f, p]), op.accepts, op.count);
        HoldPut(q, qops, ValuesFor(ops, f, p));
      } else if op.CheckExpected? && op.callee == f && op.param == p {
        ChecksConsume(Lookup(st.params, [f, p]));
        HoldUse(q, qops, op.actual, ValuesFor(rest, f, p));
      }
    }
  }

  lemma PathOfTwo(st: State, f: string, p: string)
    requires WellFormedState(st)
    ensures |[f, p]| == 2 && WellFormed(st.params, 2) && |[f]| == 1 && WellFormed(st.results, 1)
  {
  }

  lemma NoChecks(q: seq<Entry<int -> bool>>, f: string, p: string)
    ensures AllHold(q, CheckOps([], f, p), ValuesFor([], f, p))
  {
  }

  lemma CheckOpsNext(ops: seq<Op>, f: string, p: string)
    requires ops != []
    ensures var op, qops := ops[0], CheckOps(ops, f, p);
            if op.ExpectCheck? && op.callee == f && op.param == p then
              && qops != [] && qops[0] == Put(Entry(op.accepts, op.count)) && qops[1..] == CheckOps(ops[1..], f, p)
              && Uses(qops) == Uses(qops[1..]) && ValuesFor(ops, f, p) == ValuesFor(ops[1..], f, p)
            else if op.CheckExpected? && op.callee == f && op.param == p then
              && qops != [] && qops[0] == Use && qops[1..] == CheckOps(ops[1..], f, p)
              && Uses(qops) == Uses(qops[1..]) + 1 && ValuesFor(ops, f, p) == [op.actual] + ValuesFor(ops[1..], f, p)
            else qops == CheckOps(ops[1..], f, p) && ValuesFor(ops, f, p) == ValuesFor(ops[1..], f, p)
  {
  }

  lemma ChecksAppend(q: seq<Entry<Datum>>, accepts: int -> bool, count: int)
    ensures ChecksIn(q + [Entry(Checked(accepts), count)]) == ChecksIn(q) + [Entry(accepts, count)]
  {
  }

  lemma ChecksConsume(q: seq<Entry<Datum>>)
    requires q != []
    ensures ChecksIn(q) != [] && ChecksIn(Consume(q)) == Consume(ChecksIn(q))
    ensures ChecksIn(q)[0].count == q[0].count
    ensures q[0].value.Checked? ==> ChecksIn(q)[0].value == q[0].value.accepts
  {
  }

  /** The declarations and calls of one mock, in a queue of tags and values. */
  function MockOps(ops: seq<Op>, f: string): seq<QueueOp<(Option<string>, int)>> {
    if ops == [] then [] else MockOp(ops[0], f) + MockOps(ops[1..], f)
  }

  function MockOp(op: Op, f: string): seq<QueueOp<(Option<string>, int)>> {
    match op
    case WillReturn(f', tag, v, n) => if f' == f then [Put(Entry((tag, v), n))] else []
    case Mock(f', _) => if f' == f then [Use] else []
    case _ => []
  }

  /** The tags that the calls of one mock ask for. */
  function WantedBy(ops: seq<Op>, f: string): seq<Option<string>> {
    if ops == [] then [] else
    (if ops[0].Mock? && ops[0].callee == f then [ops[0].wanted] else []) + WantedBy(ops[1..], f)
  }

  function ValuesIn(q: seq<Entry<Datum>>): seq<Entry<(Option<string>, int)>> {
    seq(|q|, i requires 0 <= i < |q| =>
      Entry(if q[i].value.Returned? then (q[i].value.tag, q[i].value.value) else (None, 0), q[i].count))
  }

  /** What the store of results holds are values to be returned. */
  ghost predicate OnlyReturned(q: seq<Entry<Datum>>) {
    forall i :: 0 <= i < |q| ==> q[i].value.Returned?
  }

  /** What a call that returns does to the values of one mock: a typed mock is only given a value with
      the very tag it asks for, never one without a tag. */
  lemma MockStep(st: State, op: Op, f: string)
    requires WellFormedState(st) && Step(st, op).1 == Returns && OnlyReturned(Lookup(st.results, [f]))
    ensures var q, q' := Lookup(st.results, [f]), Lookup(Step(st, op).0.results, [f]);
            && OnlyReturned(q')
            && if op.WillReturn? && op.callee == f then
                 op.count != 0 && q' == q + [Entry(Datum.Returned(op.tag, op.value), op.count)]
               else if op.Mock? && op.callee == f then
                 && q != [] && q[0].count != 0 && q' == Consume(q) && HandedBy(st, op) == [([f], q[0].value)]
                 && (op.wanted.None? || op.wanted == q[0].value.tag)
               else q' == q && forall i :: 0 <= i < |HandedBy(st, op)| ==> HandedBy(st, op)[i].0 != [f]
    ensures |HandedBy(st, op)| <= 1 && (!op.Mock? ==> HandedBy(st, op) == [])
  {
    hide Add, Get, WellFormed, Lookup, Called;
    if op.WillReturn? {
      AddMeaning(st.results, [op.callee], Entry(Datum.Returned(op.tag, op.value), op.count), [f]);
    } else if op.Mock? {
      GetShape(st.results, [op.callee]);
      GetMeaning(st.results, [op.callee], [f]);
      assert [op.callee][0] == op.callee && [f][0] == f;
    }
  }

  /** Call j of a mock is given element j of the expansion of the values that were declared before it, and
      has asked for no tag or for the tag of that element. */
  ghost predicate AllServed(q: seq<Entry<(Option<string>, int)>>, qops: seq<QueueOp<(Option<string>, int)>>,
                            wanted: seq<Option<string>>, results: seq<Datum>)
  {
    && |wanted| == Uses(qops) == |results|
    && forall j :: 0 <= j < Uses(qops) ==>
         && Due(q, qops, j).Some?
         && results[j] == Datum.Returned(Due(q, qops, j).value.0, Due(q, qops, j).value.1)
         && (wanted[j].None? || wanted[j] == Due(q, qops, j).value.0)
  }

  lemma ServedPut(q: seq<Entry<(Option<string>, int)>>, qops: seq<QueueOp<(Option<string>, int)>>,
                  wanted: seq<Option<string>>, results: seq<Datum>)
    requires qops != [] && qops[0].Put? && AllServed(q + [qops[0].entry], qops[1..], wanted, results)
    ensures AllServed(q, qops, wanted, results)
  {
    hide Due;
    forall j | 0 <= j < Uses(qops) ensures Due(q, qops, j) == Due(q + [qops[0].entry], qops[1..], j) {
      DuePut(q, qops, j);
    }
  }

  lemma ServedUse(q: seq<Entry<(Option<string>, int)>>, qops: seq<QueueOp<(Option<string>, int)>>,
                  w: Option<string>, wanted: seq<Option<string>>, results: seq<Datum>)
    requires qops != [] && qops[0].Use? && q != [] && q[0].count != 0 && (w.None? || w == q[0].value.0)
    requires AllServed(Consume(q), qops[1..], wanted, results)
    ensures AllServed(q, qops, [w] + wanted, [Datum.Returned(q[0].value.0, q[0].value.1)] + results)
  {
    hide Due, Consume;
    forall j | 0 <= j < Uses(qops)
      ensures Due(q, qops, j) == if j == 0 then Some(q[0].value) else Due(Consume(q), qops[1..], j - 1)
    {
      if j == 0 { DueFirst(q, qops); } else { DueUse(q, qops, j); }
    }
  }

  /** In a phase that runs to its end, every mock is given what was declared for it, and typed mocks are
      given values of their type. */
  lemma {:induction false} MocksHold(st: State, ops: seq<Op>, f: string)
    requires WellFormedState(st) && RunOps(st, ops).1 == Returns && OnlyReturned(Lookup(st.results, [f]))
    ensures AllServed(ValuesIn(Lookup(st.results, [f])), MockOps(ops, f), WantedBy(ops, f),
              ProjectResults(Handed(st, ops), [f]))
    decreases |ops|
  {
    hide *;
    PathOfTwo(st, f, f);
    if ops == [] {
      RunNothing(st);
      NoMocks(ValuesIn(Lookup(st.results, [f])), f);
    } else {
      var op, rest := ops[0], ops[1..];
      RunOnwards(st, ops);
      MockStep(st, op, f);
      PathOfTwo(Step(st, op).0, f, f);
      MocksHold(Step(st, op).0, rest, f);
      MockOpsNext(ops, f);
      HandedUnfold(st, ops);
      HandedNext(HandedBy(st, op), Handed(Step(st, op).0, rest), [f]);
      var q, qops := ValuesIn(Lookup(st.results, [f])), MockOps(ops, f);
      if op.WillReturn? && op.callee == f {
        ValuesAppend(Lookup(st.results, [f]), op.tag, op.value, op.count);
        ServedPut(q, qops, WantedBy(ops, f), ProjectResults(Handed(st, ops), [f]));
      } else if op.Mock? && op.callee == f {
        FirstReturned(Lookup(st.results, [f]));
        ValuesConsume(Lookup(st.results, [f]));
        ServedUse(q, qops, op.wanted, WantedBy(rest, f), ProjectResults(Handed(Step(st, op).0, rest), [f]));
      }
    }
  }

  lemma FirstReturned(q: seq<Entry<Datum>>)
    requires OnlyReturned(q) && q != []
    ensures q[0].value == Datum.Returned(q[0].value.tag, q[0].value.value)
  {
  }

  lemma NoMocks(q: seq<Entry<(Option<string>, int)>>, f: string)
    ensures AllServed(q, MockOps([], f), WantedBy([], f), ProjectResults([], [f]))
  {
  }

  lemma HandedUnfold(st: State, ops: seq<Op>)
    requires WellFormedState(st) && ops != [] && Step(st, ops[0]).1 == Returns
    ensures Handed(st, ops) == HandedBy(st, ops[0]) + Handed(Step(st, ops[0]).0, ops[1..])
  {
  }

  lemma HandedNext(first: seq<(seq<string>, Datum)>, more: seq<(seq<string>, Datum)>, path: seq<string>)
    requires |first| <= 1
    ensures ProjectResults(first + more, path) ==
            if first != [] && first[0].0 == path then [first[0].1] + ProjectResults(more, path)
            else ProjectResults(more, path)
  {
    if first == [] {
      assert first + more == more;
    } else {
      assert (first + more)[1..] == more;
    }
  }

  lemma MockOpsNext(ops: seq<Op>, f: string)
    requires ops != []
    ensures var op, qops := ops[0], MockOps(ops, f);
            if op.WillReturn? && op.callee == f then
              && qops != [] && qops[0] == Put(Entry((op.tag, op.value), op.count)) && qops[1..] == MockOps(ops[1..], f)
              && Uses(qops) == Uses(qops[1..]) && WantedBy(ops, f) == WantedBy(ops[1..], f)
            else if op.Mock? && op.callee == f then
              && qops != [] && qops[0] == Use && qops[1..] == MockOps(ops[1..], f)
              && Uses(qops) == Uses(qops[1..]) + 1 && WantedBy(ops, f) == [op.wanted] + WantedBy(ops[1..], f)
            else qops == MockOps(ops[1..], f) && WantedBy(ops, f) == WantedBy(ops[1..], f)
  {
  }

  lemma ValuesAppend(q: seq<Entry<Datum>>, tag: Option<string>, value: int, count: int)
    ensures ValuesIn(q + [Entry(Datum.Returned(tag, value), count)]) == ValuesIn(q) + [Entry((tag, value), count)]
  {
  }

  lemma ValuesConsume(q: seq<Entry<Datum>>)
    requires q != []
    ensures ValuesIn(q) != [] && ValuesIn(Consume(q)) == Consume(ValuesIn(q))
    ensures ValuesIn(q)[0].count == q[0].count
    ensures q[0].value.Returned? ==> ValuesIn(q)[0].value == (q[0].value.tag, q[0].value.value)
  {
  }

  // ---- One declaration and one call

  lemma RunTwo(a: Op, b: Op)
    ensures RunOps(Nothing, [a, b]).1 == Returns <==>
            Step(Nothing, a).1 == Returns && Step(Step(Nothing, a).0, b).1 == Returns
  {
    var st := Step(Nothing, a).0;
    assert [a, b][1..] == [b] && [b][1..] == [];
    hide Step;
    assert RunOps(st, [b]).1 == Returns <==> Step(st, b).1 == Returns;
  }

  /** One check and one value: the phase goes on exactly if the check accepts it. */
  lemma CheckOnce(f: string, p: string, accepts: int -> bool, n: int, v: int)
    requires n != 0
    ensures RunOps(Nothing, [Op.ExpectCheck(f, p, accepts, n), Op.CheckExpected(f, p, v)]).1 == Returns <==> accepts(v)
  {
    hide *;
    var declare, check := Op.ExpectCheck(f, p, accepts, n), Op.CheckExpected(f, p, v);
    RunTwo(declare, check);
    NothingThere(f, p);
    CheckStep(Nothing, declare, f, p);
    PathOfTwo(Step(Nothing, declare).0, f, p);
    CheckWorks(Step(Nothing, declare).0, f, p, v, Entry(Checked(accepts), n));
  }

  lemma NothingThere(f: string, p: string)
    ensures WellFormedState(Nothing) && Lookup(Nothing.params, [f, p]) == Lookup(Nothing.results, [f]) == []
    ensures forall accepts, n :: Step(Nothing, Op.ExpectCheck(f, p, accepts, n)).1 == Returns
    ensures forall tag, v, n :: n != 0 ==> Step(Nothing, Op.WillReturn(f, tag, v, n)).1 == Returns
    ensures OnlyReturned([])
  {
    LookupEmpty<Datum>([f, p]);
    LookupEmpty<Datum>([f]);
    hide Add, Lookup;
  }

  /** Whether a check succeeds, if one is due. */
  lemma CheckWorks(st: State, f: string, p: string, v: int, e: Entry<Datum>)
    requires WellFormedState(st) && Lookup(st.params, [f, p]) == [e] && e.count != 0
    ensures Step(st, Op.CheckExpected(f, p, v)).1 == Returns <==> e.value.Checked? && e.value.accepts(v)
  {
    hide Get, WellFormed, Lookup;
    GetShape(st.params, [f, p]);
  }

  lemma MockWorks(st: State, f: string, wanted: Option<string>, e: Entry<Datum>)
    requires WellFormedState(st) && Lookup(st.results, [f]) == [e] && e.count != 0 && e.value.Returned?
    ensures Step(st, Op.Mock(f, wanted)).1 == Returns <==> wanted.None? || wanted == e.value.tag
  {
    hide Get, WellFormed, Lookup;
    GetShape(st.results, [f]);
  }

  /** One value and one mock: it is given the value, exactly if it asks for no tag or for the tag of the value. */
  lemma MockOnce(f: string, tag: Option<string>, v: int, n: int, wanted: Option<string>)
    requires n != 0
    ensures RunOps(Nothing, [Op.WillReturn(f, tag, v, n), Op.Mock(f, wanted)]).1 == Returns <==>
            wanted.None? || wanted == tag
  {
    hide *;
    var declare, mock := Op.WillReturn(f, tag, v, n), Op.Mock(f, wanted);
    RunTwo(declare, mock);
    NothingThere(f, f);
    MockStep(Nothing, declare, f);
    PathOfTwo(Step(Nothing, declare).0, f, f);
    MockWorks(Step(Nothing, declare).0, f, wanted, Entry(Datum.Returned(tag, v), n));
  }
}
