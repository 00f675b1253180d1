// A phase whose function also uses the guarded allocator: API calls and calls of malloc and its
// relatives, in any order, and the check for blocks that are left since the heap checkpoint.
module HeapPhases {
  import opened Wrappers
  import opened Sequences
  import opened Words
  import opened Allocator
  import opened SymbolTree
  import opened Expectations
  import opened Phases
  import opened Framework
  import ClientRuns

  datatype Call = Api(op: Op) | Heap(use: ClientRuns.ClientOp)

  datatype Script = Script(calls: seq<Call>, rc: int)

  /** The function of a phase. */
  datatype Function = Test(script: Script) | Setup(script: Script) | Teardown(script: Script)

  /** A setup is not checked for blocks that it leaves: the teardown is. */
  predicate Checked(f: Function) {
    f.Test? || f.Teardown?
  }

  function PhaseOf(f: Function, ops: seq<Op>, leaks: bool): Phase {
    var b := Body(ops, f.script.rc, leaks);
    match f
    case Test(_) => Phase.Test(b)
    case Setup(_) => Phase.Setup(b)
    case Teardown(_) => Phase.Teardown(b)
  }

  function HeapCalls(calls: seq<Call>): seq<ClientRuns.ClientOp> {
    if calls == [] then [] else (if calls[0].Heap? then [calls[0].use] else []) + HeapCalls(calls[1..])
  }

  /** What the framework sees of a run: its API calls, up to a call of the allocator that was refused,
      which fails the phase. trace holds the calls of the allocator that were reached. */
  function Seen(calls: seq<Call>, trace: seq<ClientRuns.Step>): seq<Op> {
    if calls == [] then []
    else if calls[0].Api? then [calls[0].op] + Seen(calls[1..], trace)
    else if trace == [] then []
    else if trace[0].result.Fails? then [Op.Fail]
    else Seen(calls[1..], trace[1..])
  }

  /** The API calls of a run, if nothing cuts it short. */
  function ApiCalls(calls: seq<Call>): seq<Op> {
    if calls == [] then [] else (if calls[0].Api? then [calls[0].op] else []) + ApiCalls(calls[1..])
  }

  /** What is seen of a run breaks no rule of ownership if its API calls do not. */
  lemma {:induction false} SeenSound(st: State, calls: seq<Call>, trace: seq<ClientRuns.Step>)
    requires WellFormedState(st)
    ensures !RunFreesStored(st, ApiCalls(calls)) ==> !RunFreesStored(st, Seen(calls, trace))
    ensures !RunLosesRecord(st, ApiCalls(calls)) ==> !RunLosesRecord(st, Seen(calls, trace))
    decreases |calls|
  {
    hide RunFreesStored, RunLosesRecord, Step, FreesStored, WellFormed;
    RunUnfold(st, ApiCalls(calls));
    RunUnfold(st, Seen(calls, trace));
    if calls != [] {
      if calls[0].Api? {
        SeenSound(Step(st, calls[0].op).0, calls[1..], trace);
        assert ApiCalls(calls)[1..] == ApiCalls(calls[1..]) && Seen(calls, trace)[1..] == Seen(calls[1..], trace);
      } else if trace != [] && !trace[0].result.Fails? {
        SeenSound(st, calls[1..], trace[1..]);
        assert ApiCalls(calls) == ApiCalls(calls[1..]);
      } else if trace != [] {
        FailIsSound(st);
      }
    }
  }

  lemma FailIsSound(st: State)
    requires WellFormedState(st)
    ensures !RunFreesStored(st, [Op.Fail]) && !RunLosesRecord(st, [Op.Fail])
  {
  }

  /** trace holds calls of the allocator in their order, and all of them if the run was not cut short. */
  ghost predicate Reaches(calls: seq<Call>, trace: seq<ClientRuns.Step>, end: End) {
    && |trace| <= |HeapCalls(calls)| && (end == Returns ==> |trace| == |HeapCalls(calls)|)
    && forall j :: 0 <= j < |trace| ==> trace[j].op == HeapCalls(calls)[j]
  }

  /** What a run does to the guarded heap: m and blocks become m' and blocks'. */
  ghost predicate HeapRun(header: nat, top: nat, m: Arena, blocks: seq<nat>, trace: seq<ClientRuns.Step>, m': Arena,
                          blocks': seq<nat>)
  {
    && ClientRuns.Follows(header, top, m, blocks, trace) && m' == ClientRuns.LastMemory(trace, m)
    && ClientRuns.RunKeeps(header, m, blocks, trace, m', blocks')
  }

  lemma NoHeapCall(a: Allocator)
    requires ClientRuns.Clean(a)
    ensures HeapRun(a.header, Pow2(a.width), a.mem, a.blocks, [], a.mem, a.blocks)
  {
    ClientRuns.RunStarts(a);
  }

  /** One call, then the rest of the run. */
  lemma HeapRunOn(header: nat, top: nat, st: ClientRuns.Step, between: seq<nat>, rest: seq<ClientRuns.Step>, m': Arena,
                  blocks': seq<nat>)
    requires ClientRuns.StepKeeps(header, top, st, between)
    requires st.allowed <==> ClientRuns.AllowedIn(st.mem, header, top, st.before, st.op)
    requires HeapRun(header, top, st.after, between, rest, m', blocks')
    ensures HeapRun(header, top, st.mem, st.before, [st] + rest, m', blocks')
  {
    ClientRuns.RunOn(header, top, st, between, rest, m', blocks');
  }

  lemma NoCall()
    ensures Seen([], []) == [] && Reaches([], [], Returns)
  {
  }

  lemma ApiCall(calls: seq<Call>, trace: seq<ClientRuns.Step>, end: End)
    requires calls != [] && calls[0].Api?
    ensures var seen := Seen(calls, trace);
            seen != [] && seen[0] == calls[0].op && seen[1..] == Seen(calls[1..], trace)
    ensures Reaches(calls[1..], trace, end) ==> Reaches(calls, trace, end)
    ensures end != Returns ==> Reaches(calls, [], end)
  {
    assert HeapCalls(calls) == HeapCalls(calls[1..]);
  }

  lemma HeapCall(calls: seq<Call>, st: ClientRuns.Step, rest: seq<ClientRuns.Step>, end: End)
    requires calls != [] && calls[0] == Heap(st.op)
    ensures Seen(calls, [st] + rest) == if st.result.Fails? then [Op.Fail] else Seen(calls[1..], rest)
    ensures Reaches(calls[1..], rest, end) ==> Reaches(calls, [st] + rest, end)
    ensures end != Returns ==> Reaches(calls, [st], end)
  {
    HeapCallFirst(calls, st, rest);
    hide Seen, HeapCalls;
    var trace, uses := [st] + rest, HeapCalls(calls[1..]);
    assert forall j :: 0 <= j < |rest| ==> trace[j + 1] == rest[j];
    assert forall j :: 0 < j < |uses| + 1 ==> ([st.op] + uses)[j] == uses[j - 1];
  }

  lemma HeapCallFirst(calls: seq<Call>, st: ClientRuns.Step, rest: seq<ClientRuns.Step>)
    requires calls != [] && calls[0] == Heap(st.op)
    ensures Seen(calls, [st] + rest) == if st.result.Fails? then [Op.Fail] else Seen(calls[1..], rest)
    ensures HeapCalls(calls) == [st.op] + HeapCalls(calls[1..])
  {
    assert ([st] + rest)[1..] == rest;
  }

  /** The function of a phase: its calls, up to the one that jumps out of it. */
  method Play(c: Cmocka, a: Allocator, calls: seq<Call>)
    returns (end: End, values: seq<(seq<string>, Datum)>, ghost trace: seq<ClientRuns.Step>, ghost orphans: set<Ptr>,
             ghost lost: Ptr)
    requires c.Valid() && c.heap.at.freed == {} && ClientRuns.Clean(a)
    modifies c`stop, c`skip, c.heap, a
    ensures c.Valid() && c.heap.fault == old(c.heap.fault) && ClientRuns.Clean(a)
    ensures AfterRun(old(c.State()), Seen(calls, trace), end, values, c.State(), c.heap.at.freed == {}, orphans)
    ensures c.heap.at.freed != {} ==> InTree(c.heap.mem, RESULTS, 1, lost) && lost !in c.heap.mem.records
    ensures c.heap.loose == old(c.heap.loose) + orphans && orphans !! old(c.heap.loose)
    ensures c.skip == (old(c.skip) || end == Skips) && c.stop == (old(c.stop) || end == Stops)
    ensures Reaches(calls, trace, end)
    ensures HeapRun(a.header, Pow2(a.width), old(a.mem), old(a.blocks), trace, a.mem, a.blocks)
    decreases |calls|
  {
    hide *;
    hide Cmocka.Valid, Cmocka.State;
    ghost var st := c.State();
    values, orphans, lost := [], {}, 0;
    NoHeapCall(a);
    if calls == [] {
      RunNone(st);
      NoCall();
      return Returns, [], [], {}, 0;
    }
    match calls[0]
    case Api(op) =>
      var result;
      end, result, orphans, lost := c.Call(op);
      trace := [];
      ApiCall(calls, [], end);
      if end != Returns {
        RunJumps(st, Seen(calls, []), end, result, c.State(), c.heap.at.freed == {}, orphans);
        return;
      }
      ghost var st1 := c.State();
      CallReturns(st, op, result, st1, c.heap.at.freed == {}, orphans);
      var more;
      end, more, trace, orphans, lost := Play(c, a, calls[1..]);
      ApiCall(calls, trace, end);
      RunGoesOn(st, Seen(calls, trace), result, st1, end, more, c.State(), c.heap.at.freed == {}, orphans);
      values := Results(op, result) + more;
    case Heap(op) =>
      ghost var step;
      var r;
      r, step := ClientRuns.Attempt(a, op);
      ghost var between := a.blocks;
      if r.Fails? {
        end, trace := End.Fails, [step];
        RunRefused(st);
        HeapCall(calls, step, [], end);
        NoHeapCall(a);
        assert [step] + [] == [step];
        HeapRunOn(a.header, Pow2(a.width), step, between, [], a.mem, a.blocks);
        return;
      }
      ghost var rest;
      end, values, rest, orphans, lost := Play(c, a, calls[1..]);
      trace := [step] + rest;
      HeapCall(calls, step, rest, end);
      HeapRunOn(a.header, Pow2(a.width), step, between, rest, a.mem, a.blocks);
  }

  lemma RunRefused(st: State)
    requires WellFormedState(st)
    ensures AfterRun(st, [Op.Fail], End.Fails, [], st, true, {})
  {
    RunUnfold(st, [Op.Fail]);
  }

  // ---- The end of the phase

  /** fail_if_blocks_allocated, on a heap with intact guards: what was allocated since the checkpoint is
      freed, and the rest stays as it is. */
  method CheckBlocks(a: Allocator, cp: Option<nat>) returns (leaked: bool)
    requires ClientRuns.Clean(a) && (cp.Some? ==> cp.value in a.blocks)
    modifies a
    ensures ClientRuns.Clean(a) && (leaked <==> Since(old(a.blocks), cp) != [])
    ensures a.blocks == old(a.blocks)[..Start(old(a.blocks), cp)]
    ensures forall h :: h in a.blocks ==> BlockKept(old(a.mem), a.mem, h)
  {
    ghost var m, b, n := a.mem, a.blocks, Start(a.blocks, cp);
    leaked := a.FailIfBlocksAllocated(cp);
    NoneDamaged(m, a.mem, a.header, b, n, a.blocks);
  }

  lemma NoneDamaged(m: Arena, m': Arena, header: nat, b: seq<nat>, n: nat, after: seq<nat>)
    requires Linked(m, header, b) && AllIntact(m, header, b) && n <= |b|
    requires forall i :: 0 <= i < n ==> BlockKept(m, m', b[i])
    requires exists j :: n <= j <= |b| && after == b[..n] + b[j..] && (j < |b| ==> Damaged(m, header, b[j]))
    ensures after == b[..n] && AllIntact(m', header, after) && forall h :: h in after ==> BlockKept(m, m', h)
  {
    var j :| n <= j <= |b| && after == b[..n] + b[j..] && (j < |b| ==> Damaged(m, header, b[j]));
    assert j == |b|;
    assert after == b[..n];
    ClientRuns.CleanAgain(m, m', header, b, after);
  }

  /** How the calls of a phase end, up to a jump. */
  ghost function EndOf(f: Function, trace: seq<ClientRuns.Step>): End {
    RunOps(Nothing, Seen(f.script.calls, trace)).1
  }

  /** The list of blocks when the function of the phase is over. */
  ghost function BlocksThen(header: nat, before: seq<nat>, trace: seq<ClientRuns.Step>): seq<nat> {
    RunList(before, ClientRuns.RunEvents(header, trace))
  }

  /** What the check for leaks finds, and leaves: it looks only if the function ran to its end, and it
      has no meaning if the block of the checkpoint is gone. */
  ghost predicate LeakCheck(f: Function, end: End, now: seq<nat>, cp: Option<nat>, after: seq<nat>, dangling: bool,
                            leaked: bool)
  {
    if !Checked(f) || end != Returns then after == now && !dangling && !leaked
    else if cp.Some? && cp.value !in now then after == now && dangling && !leaked
    else after == now[..Start(now, cp)] && !dangling && (leaked <==> Since(now, cp) != [])
  }

  method CheckAtEnd(a: Allocator, f: Function, end: End, cp: Option<nat>) returns (dangling: bool, leaked: bool)
    requires ClientRuns.Clean(a)
    modifies a
    ensures ClientRuns.Clean(a) && LeakCheck(f, end, old(a.blocks), cp, a.blocks, dangling, leaked)
    ensures forall h :: h in a.blocks ==> BlockKept(old(a.mem), a.mem, h)
  {
    ClientRuns.Unchanged(a.mem, Pow2(a.width), a.header, a.blocks);
    hide Start, Since, BlockKept;
    dangling, leaked := false, false;
    if Checked(f) && end == Returns {
      dangling := cp.Some? && cp.value !in a.blocks;
      if !dangling {
        leaked := CheckBlocks(a, cp);
      }
    }
  }

  /** The framework after a phase, which returned rc and lost the given records. */
  ghost predicate PhaseDone(c: Cmocka, ph: Phase, skip0: bool, loose0: set<Ptr>, rc: int, orphans: set<Ptr>)
    reads c, c.heap
  {
    && c.Valid() && c.State() == Nothing && !c.running && !c.stop
    && rc == RunPhase(ph).0 && c.skip == (skip0 || RunPhase(ph).1)
    && c.heap.mem.symbols == map[] && c.heap.mem.records.Keys == c.heap.loose && c.heap.mem.nodes == {}
    && c.heap.loose == loose0 + orphans && orphans !! loose0
    && |orphans| == (if RunLosesRecord(Nothing, OpsOf(ph)) then 1 else 0)
    && (c.heap.fault <==> RunFreesStored(Nothing, OpsOf(ph)))
    && (!c.heap.fault ==> c.heap.at.freed == {})
  }

  /** A phase that was run: its function, the calls of the allocator that were reached, the blocks before
      and after it, the checkpoint, and what the check for leaks found. */
  datatype Log = Log(f: Function, trace: seq<ClientRuns.Step>, before: seq<nat>, cp: Option<nat>, after: seq<nat>,
                     dangling: bool, leaked: bool)

  /** The phase as Phases sees it. */
  function PhaseOfLog(log: Log): Phase {
    PhaseOf(log.f, Seen(log.f.script.calls, log.trace), log.leaked)
  }

  ghost predicate Logged(header: nat, log: Log) {
    && Distinct(log.before) && Reaches(log.f.script.calls, log.trace, EndOf(log.f, log.trace))
    && Legal(log.before, ClientRuns.RunEvents(header, log.trace))
    && LeakCheck(log.f, EndOf(log.f, log.trace), BlocksThen(header, log.before, log.trace), log.cp, log.after,
         log.dangling, log.leaked)
  }

  /** What remains to be done in the framework after the function and the check for leaks. */
  method FinishPhase(c: Cmocka, f: Function, end: End, leaked: bool, ghost ops: seq<Op>,
                     ghost values: seq<(seq<string>, Datum)>, ghost skip0: bool, ghost loose0: set<Ptr>,
                     ghost orphans: set<Ptr>, ghost lost: Ptr)
    returns (rc: int)
    requires c.Valid() && !c.heap.fault && (c.stop <==> end == Stops) && c.skip == (skip0 || end == Skips)
    requires AfterRun(Nothing, ops, end, values, c.State(), c.heap.at.freed == {}, orphans)
    requires c.heap.at.freed != {} ==> InTree(c.heap.mem, RESULTS, 1, lost) && lost !in c.heap.mem.records
    requires c.heap.loose == loose0 + orphans && orphans !! loose0
    modifies c, c.heap
    ensures PhaseDone(c, PhaseOf(f, ops, leaked), skip0, loose0, rc, orphans)
  {
    hide *;
    hide Cmocka.Valid, Cmocka.State;
    EndOfRun(ops, end, values, c.State(), c.heap.at.freed == {}, orphans);
    SameVerdict(f, ops, leaked, c.State(), end);
    rc := c.Finish(PhaseOf(f, [], leaked), end, lost);
    IsDone(c, PhaseOf(f, ops, leaked), skip0, loose0, rc, orphans);
  }

  lemma EndOfRun(ops: seq<Op>, end: End, values: seq<(seq<string>, Datum)>, st: State, sound: bool, orphans: set<Ptr>)
    requires AfterRun(Nothing, ops, end, values, st, sound, orphans)
    ensures end == RunOps(Nothing, ops).1 && (sound <==> !RunFreesStored(Nothing, ops))
    ensures if sound then st == RunOps(Nothing, ops).0 else end == End.Fails
    ensures |orphans| == if RunLosesRecord(Nothing, ops) then 1 else 0
  {
  }

  lemma IsDone(c: Cmocka, ph: Phase, skip0: bool, loose0: set<Ptr>, rc: int, orphans: set<Ptr>)
    requires c.Valid() && c.State() == Nothing && !c.running && !c.stop
    requires rc == RunPhase(ph).0 && c.skip == (skip0 || RunPhase(ph).1)
    requires c.heap.mem.symbols == map[] && c.heap.mem.records.Keys == c.heap.loose && c.heap.mem.nodes == {}
    requires c.heap.loose == loose0 + orphans && orphans !! loose0
    requires |orphans| == (if RunLosesRecord(Nothing, OpsOf(ph)) then 1 else 0)
    requires (c.heap.fault <==> RunFreesStored(Nothing, OpsOf(ph))) && (!c.heap.fault ==> c.heap.at.freed == {})
    ensures PhaseDone(c, ph, skip0, loose0, rc, orphans)
  {
  }

  /** Of the calls of a phase, only their end and the lists they leave matter to its verdict; if they
      freed something that is still stored, they failed. */
  lemma SameVerdict(f: Function, ops: seq<Op>, leaked: bool, st: State, end: End)
    requires WellFormedState(st) && end == RunOps(Nothing, ops).1
    requires st == RunOps(Nothing, ops).0 || end == End.Fails
    ensures OpsOf(PhaseOf(f, ops, leaked)) == ops
    ensures Verdict(PhaseOf(f, [], leaked), st, end) == RunPhase(PhaseOf(f, ops, leaked))
    ensures RunPhase(PhaseOf(f, ops, leaked)).1 <==> end == Skips
  {
    var ph := PhaseOf(f, ops, leaked);
    PhaseUnfold(ph);
    VerdictIs(ph, RunOps(Nothing, ops).0, end);
    VerdictIs(PhaseOf(f, [], leaked), st, end);
    hide RunOps, HasLeftovers, Verdict;
  }

  /** cmocka_run_one_test_or_fixture, of a function that uses the guarded allocator. heapCheckPoint is
      what the caller hands on; without it, the checkpoint is taken at the start. */
  method RunOneTestOrFixture(c: Cmocka, a: Allocator, f: Function, heapCheckPoint: Option<Option<nat>>)
    returns (rc: int, dangling: bool, ghost log: Log, ghost orphans: set<Ptr>)
    requires c.Valid() && c.State() == Nothing && c.heap.at.freed == {} && !c.heap.fault && !c.stop
    requires ClientRuns.Clean(a)
    modifies c, c.heap, a
    ensures ClientRuns.Clean(a) && Logged(a.header, log)
    ensures ClientRuns.Follows(a.header, Pow2(a.width), old(a.mem), old(a.blocks), log.trace)
    ensures Untouching(log, old(a.mem), a.mem)
    ensures log.f == f && log.before == old(a.blocks) && log.after == a.blocks && log.dangling == dangling
    ensures log.cp == if heapCheckPoint.Some? then heapCheckPoint.value else LastOf(old(a.blocks))
    ensures !dangling ==> PhaseDone(c, PhaseOfLog(log), old(c.skip), old(c.heap.loose), rc, orphans)
  {
    hide *;
    hide Cmocka.Valid, Cmocka.State;
    var end, leaked;
    ghost var values, lost;
    ghost var skip0, loose0 := c.skip, c.heap.loose;
    end, dangling, leaked, log, values, orphans, lost := PlayPhase(c, a, f, heapCheckPoint);
    rc := -1;
    if !dangling {
      rc := FinishPhase(c, f, end, leaked, Seen(f.script.calls, log.trace), values, skip0, loose0, orphans, lost);
      PhaseIs(log);
    }
  }

  /** A block that no call of the phase was about, and that is still there, is as it was. */
  ghost predicate Untouching(log: Log, m: Arena, m': Arena) {
    forall h :: h in log.before && h in log.after && ClientRuns.Untouched(log.trace, h) ==> BlockKept(m, m', h)
  }

  /** The function of a phase, and the check for leaks. */
  method PlayPhase(c: Cmocka, a: Allocator, f: Function, heapCheckPoint: Option<Option<nat>>)
    returns (end: End, dangling: bool, leaked: bool, ghost log: Log, ghost values: seq<(seq<string>, Datum)>,
             ghost orphans: set<Ptr>, ghost lost: Ptr)
    requires c.Valid() && c.State() == Nothing && c.heap.at.freed == {} && !c.heap.fault && !c.stop
    requires ClientRuns.Clean(a)
    modifies c, c.heap, a
    ensures ClientRuns.Clean(a) && Logged(a.header, log)
    ensures ClientRuns.Follows(a.header, Pow2(a.width), old(a.mem), old(a.blocks), log.trace)
    ensures Untouching(log, old(a.mem), a.mem)
    ensures log.f == f && log.before == old(a.blocks) && log.after == a.blocks
    ensures log.dangling == dangling && log.leaked == leaked
    ensures log.cp == if heapCheckPoint.Some? then heapCheckPoint.value else LastOf(old(a.blocks))
    ensures c.Valid() && !c.heap.fault && (c.stop <==> end == Stops) && c.skip == (old(c.skip) || end == Skips)
    ensures AfterRun(Nothing, Seen(f.script.calls, log.trace), end, values, c.State(), c.heap.at.freed == {}, orphans)
    ensures c.heap.at.freed != {} ==> InTree(c.heap.mem, RESULTS, 1, lost) && lost !in c.heap.mem.records
    ensures c.heap.loose == old(c.heap.loose) + orphans && orphans !! old(c.heap.loose)
  {
    hide *;
    hide Cmocka.Valid, Cmocka.State;
    ClientRuns.IsDistinct(a);
    var cp := a.CheckPoint();
    if heapCheckPoint.Some? {
      cp := heapCheckPoint.value;
    }
    ghost var m, before := a.mem, a.blocks;
    c.Begin();
    var results;
    ghost var trace;
    end, results, trace, orphans, lost := Play(c, a, f.script.calls);
    values := results;
    ghost var m1 := a.mem;
    EndIs(f, trace, end, values, c.State(), c.heap.at.freed == {}, orphans);
    HeapRunIs(a.header, Pow2(a.width), m, before, trace, m1, a.blocks);
    dangling, leaked := CheckAtEnd(a, f, end, cp);
    log := Log(f, trace, before, cp, a.blocks, dangling, leaked);
    KeptToTheEnd(log, m, m1, a.mem);
    LoggedIs(a.header, log);
  }

  lemma PhaseIs(log: Log)
    ensures PhaseOfLog(log) == PhaseOf(log.f, Seen(log.f.script.calls, log.trace), log.leaked)
  {
  }

  lemma LoggedIs(header: nat, log: Log)
    requires Distinct(log.before) && Reaches(log.f.script.calls, log.trace, EndOf(log.f, log.trace))
    requires Legal(log.before, ClientRuns.RunEvents(header, log.trace))
    requires LeakCheck(log.f, EndOf(log.f, log.trace), BlocksThen(header, log.before, log.trace), log.cp, log.after,
               log.dangling, log.leaked)
    ensures Logged(header, log)
  {
  }

  lemma EndIs(f: Function, trace: seq<ClientRuns.Step>, end: End, values: seq<(seq<string>, Datum)>, st: State,
              sound: bool, orphans: set<Ptr>)
    requires AfterRun(Nothing, Seen(f.script.calls, trace), end, values, st, sound, orphans)
    ensures end == EndOf(f, trace)
  {
  }

  lemma HeapRunIs(header: nat, top: nat, m: Arena, blocks: seq<nat>, trace: seq<ClientRuns.Step>, m': Arena,
                  blocks': seq<nat>)
    requires HeapRun(header, top, m, blocks, trace, m', blocks')
    ensures ClientRuns.Follows(header, top, m, blocks, trace) && blocks' == BlocksThen(header, blocks, trace)
    ensures Legal(blocks, ClientRuns.RunEvents(header, trace))
    ensures forall h :: h in blocks && ClientRuns.Untouched(trace, h) ==> BlockKept(m, m', h)
  {
  }

  lemma KeptToTheEnd(log: Log, m: Arena, m1: Arena, m2: Arena)
    requires forall h :: h in log.before && ClientRuns.Untouched(log.trace, h) ==> BlockKept(m, m1, h)
    requires forall h :: h in log.after ==> BlockKept(m1, m2, h)
    ensures Untouching(log, m, m2)
  {
    hide BlockKept, ClientRuns.Untouched;
    forall h | h in log.before && h in log.after && ClientRuns.Untouched(log.trace, h) ensures BlockKept(m, m2, h) {
      ClientRuns.KeptTwice(m, m1, m2, h);
    }
  }

  // ---- What a phase leaves behind

  /** The leak check, in terms of the calls: with a checkpoint taken at the start, blocks are reported
      exactly if the function ran to its end and some block it allocated was not freed. Then no block
      is there that was not there before. */
  lemma LeaksExactly(header: nat, log: Log)
    requires Logged(header, log) && log.cp == LastOf(log.before)
    requires log.cp.Some? ==> Removed(log.cp.value) !in ClientRuns.RunEvents(header, log.trace)
    ensures !log.dangling
    ensures log.leaked <==> Checked(log.f) && EndOf(log.f, log.trace) == Returns &&
                            RunList([], ClientRuns.RunEvents(header, log.trace)) != []
    ensures Checked(log.f) && EndOf(log.f, log.trace) == Returns ==> forall h :: h in log.after ==> h in log.before
  {
    var events := ClientRuns.RunEvents(header, log.trace);
    NothingSince(log.before);
    LeakAccounting(log.before, log.cp, events);
    hide Legal, RunList, ClientRuns.RunEvents, EndOf, Start, Distinct, Reaches;
  }

  /** A phase on a list whose first part ends at an earlier checkpoint cp0: what it allocates comes behind,
      and if its own check is against cp0, nothing is left behind it. */
  lemma PhaseSplit(header: nat, log: Log, p: seq<nat>, q: seq<nat>, cp0: Option<nat>)
    returns (p': seq<nat>, q': seq<nat>)
    requires Logged(header, log) && !log.dangling && log.before == p + q && EndsAt(p, cp0)
    requires log.cp == cp0 || log.cp == LastOf(p + q)
    requires var events := ClientRuns.RunEvents(header, log.trace);
             && (cp0.Some? ==> Removed(cp0.value) !in events) && (log.cp.Some? ==> Removed(log.cp.value) !in events)
    ensures log.after == p' + q' && EndsAt(p', cp0) && forall h :: h in p' ==> h in p
    ensures log.cp == cp0 && Checked(log.f) && EndOf(log.f, log.trace) == Returns ==> q' == []
  {
    hide *;
    AfterIs(header, log);
    var events := ClientRuns.RunEvents(header, log.trace);
    p' := RunSplit(p, q, cp0, events);
    q' := RunList(q, events);
    if Checked(log.f) && EndOf(log.f, log.trace) == Returns {
      if log.cp == cp0 || q == [] {
        LastAt(p, q, cp0);
        SinceJoined(p', q', cp0);
        assert (p' + q')[..|p'|] == p';
        q' := [];
      } else {
        EndsThere(p, q);
        var more := RunSplit(p + q, [], log.cp, events);
        SinceJoined(more, RunList([], events), log.cp);
        q' := TakenBehind(p, q, p', q', more, RunList([], events), log.cp.value);
      }
    }
  }

  /** The blocks after a phase, in terms of what its calls did to those before it. */
  lemma AfterIs(header: nat, log: Log)
    requires Logged(header, log) && !log.dangling
    ensures Distinct(log.before) && Legal(log.before, ClientRuns.RunEvents(header, log.trace))
    ensures var now := RunList(log.before, ClientRuns.RunEvents(header, log.trace));
            if Checked(log.f) && EndOf(log.f, log.trace) == Returns then
              (log.cp.Some? ==> log.cp.value in now) && log.after == now[..Start(now, log.cp)]
            else log.after == now
  {
    hide RunList, Legal, EndOf, Start, Since, Checked, Distinct, Reaches, ClientRuns.RunEvents;
  }

  lemma LastAt(p: seq<nat>, q: seq<nat>, cp0: Option<nat>)
    requires EndsAt(p, cp0)
    ensures q == [] ==> LastOf(p + q) == cp0
  {
    assert q == [] ==> p + q == p;
  }

  lemma EndsThere(p: seq<nat>, q: seq<nat>)
    requires q != []
    ensures EndsAt(p + q, LastOf(p + q)) && LastOf(p + q) == Some(q[|q| - 1]) && (p + q) + [] == p + q
  {
  }

  /** A checkpoint that was behind p still is. */
  lemma TakenBehind(p: seq<nat>, q: seq<nat>, p': seq<nat>, r: seq<nat>, more: seq<nat>, rest: seq<nat>, cp: nat)
    returns (q': seq<nat>)
    requires Distinct(p + q) && q != [] && cp == q[|q| - 1] && (forall h :: h in p' ==> h in p)
    requires p' + r == more + rest && more != [] && more[|more| - 1] == cp
    ensures (p' + r)[..|more|] == p' + q'
  {
    var n := |more|;
    if cp in p {
      ApartIn(p, q, p + q, cp);
    }
    assert (more + rest)[n - 1] == cp && forall i :: 0 <= i < |p'| ==> (p' + r)[i] == p'[i] && p'[i] in p';
    q' := r[..n - |p'|];
    assert (p' + r)[..n] == p' + q';
  }

  /** What the framework saw of a run. */
  function SeenIn(log: Log): seq<Op> {
    Seen(log.f.script.calls, log.trace)
  }

  /** The blocks behind the one that cp refers to. */
  function Behind(blocks: seq<nat>, cp: Option<nat>): seq<nat> {
    if cp.Some? && cp.value !in blocks then [] else Since(blocks, cp)
  }

  /** A phase that does what is asked of it, in terms of its calls alone: what it does before its first call
      of stop() does all that was declared, and no memory is refused. If it does not stop, a fixture must
      return 0; and unless it is a setup, no block may be left behind the checkpoint. */
  ghost predicate WentWell(header: nat, log: Log) {
    var seen := SeenIn(log);
    var ops := UntilStop(seen);
    && AllMet(ops)
    && (ops == seen ==>
          && (log.f.Test? || log.f.script.rc == 0)
          && (log.f.Setup? || Behind(BlocksThen(header, log.before, log.trace), log.cp) == []))
  }

  /** Such phases, and no others, succeed; and skip() is reported exactly if it is reached. */
  lemma PhaseExactly(header: nat, log: Log)
    requires Logged(header, log) && !log.dangling
    ensures RunPhase(PhaseOfLog(log)).0 == 0 <==> WentWell(header, log)
    ensures RunPhase(PhaseOfLog(log)).1 <==> ReachesSkip(Nothing, SeenIn(log))
  {
    hide RunPhase, AllMet, Logged, LeakCheck, Seen, RunOps, UntilStop, BlocksThen, EndOf, ReachesSkip, Behind;
    var seen := SeenIn(log);
    LogIs(header, log);
    EndSeen(log);
    LeakIs(log, BlocksThen(header, log.before, log.trace));
    AllMetIs(UntilStop(seen));
    SkipsExactly(PhaseOfLog(log));
    match log.f
    case Test(_) => PassesExactly(Body(seen, log.f.script.rc, log.leaked));
    case Setup(_) => SetupExactly(Body(seen, log.f.script.rc, log.leaked));
    case Teardown(_) => TeardownExactly(Body(seen, log.f.script.rc, log.leaked));
  }

  lemma EndSeen(log: Log)
    ensures EndOf(log.f, log.trace) == RunOps(Nothing, SeenIn(log)).1
  {
    hide RunOps;
  }

  lemma LeakIs(log: Log, now: seq<nat>)
    requires LeakCheck(log.f, EndOf(log.f, log.trace), now, log.cp, log.after, log.dangling, log.leaked)
    requires !log.dangling
    ensures !log.f.Setup? && EndOf(log.f, log.trace) == Returns ==> (log.leaked <==> Behind(now, log.cp) != [])
  {
    hide EndOf, Start, Since;
  }

  /** When a test passes whose checkpoint was taken at its start, and kept: if it does not stop, every block
      that it allocated must have been freed. */
  lemma TestPassesExactly(header: nat, log: Log)
    requires Logged(header, log) && log.f.Test? && log.cp == LastOf(log.before)
    requires log.cp.Some? ==> Removed(log.cp.value) !in ClientRuns.RunEvents(header, log.trace)
    ensures RunPhase(PhaseOfLog(log)).0 == 0 <==>
            && AllMet(UntilStop(SeenIn(log)))
            && (UntilStop(SeenIn(log)) == SeenIn(log) ==> RunList([], ClientRuns.RunEvents(header, log.trace)) == [])
  {
    hide *;
    LeaksExactly(header, log);
    PhaseExactly(header, log);
    NothingBehind(header, log);
    TestWentWell(header, log);
  }

  lemma NothingBehind(header: nat, log: Log)
    requires Logged(header, log) && log.cp == LastOf(log.before)
    requires log.cp.Some? ==> Removed(log.cp.value) !in ClientRuns.RunEvents(header, log.trace)
    ensures Behind(BlocksThen(header, log.before, log.trace), log.cp) ==
            RunList([], ClientRuns.RunEvents(header, log.trace))
  {
    NothingSince(log.before);
    LeakAccounting(log.before, log.cp, ClientRuns.RunEvents(header, log.trace));
    hide Legal, RunList, ClientRuns.RunEvents, EndOf, Start, Distinct, Reaches;
  }

  lemma TestWentWell(header: nat, log: Log)
    requires log.f.Test?
    ensures WentWell(header, log) <==>
            && AllMet(UntilStop(SeenIn(log)))
            && (UntilStop(SeenIn(log)) == SeenIn(log) ==>
                  Behind(BlocksThen(header, log.before, log.trace), log.cp) == [])
  {
    hide AllMet, UntilStop, SeenIn, Behind, BlocksThen;
  }

  // ---- Memory that is refused

  /** No call of stop() in a function. */
  predicate NeverStops(f: Script) {
    forall i :: 0 <= i < |f.calls| ==> !(f.calls[i].Api? && f.calls[i].op.Stop?)
  }

  lemma {:induction false} NoStopSeen(calls: seq<Call>, trace: seq<ClientRuns.Step>)
    requires forall i :: 0 <= i < |calls| ==> !(calls[i].Api? && calls[i].op.Stop?)
    ensures forall i :: 0 <= i < |Seen(calls, trace)| ==> !Seen(calls, trace)[i].Stop?
    decreases |calls|
  {
    if calls != [] {
      NoStopSeen(calls[1..], trace);
      if trace != [] {
        NoStopSeen(calls[1..], trace[1..]);
      }
    }
  }

  /** What is seen of a run in which no memory is refused: all of its API calls. */
  lemma {:induction false} SeenAll(calls: seq<Call>, trace: seq<ClientRuns.Step>)
    requires |trace| >= |HeapCalls(calls)| && forall j :: 0 <= j < |HeapCalls(calls)| ==> !trace[j].result.Fails?
    ensures Seen(calls, trace) == ApiCalls(calls)
    decreases |calls|
  {
    if calls != [] {
      if calls[0].Api? {
        assert HeapCalls(calls) == HeapCalls(calls[1..]);
        SeenAll(calls[1..], trace);
      } else {
        assert HeapCalls(calls) == [calls[0].use] + HeapCalls(calls[1..]);
        SeenAll(calls[1..], trace[1..]);
      }
    }
  }

  /** Memory that is refused is seen as a failure. */
  lemma {:induction false} RefusedSeen(calls: seq<Call>, trace: seq<ClientRuns.Step>, j: nat) returns (k: nat)
    requires j < |trace| <= |HeapCalls(calls)| && trace[j].result.Fails?
    ensures k < |Seen(calls, trace)| && Seen(calls, trace)[k].Fail?
    decreases |calls|
  {
    if calls[0].Api? {
      k := RefusedSeen(calls[1..], trace, j);
      k := k + 1;
    } else if trace[0].result.Fails? {
      k := 0;
    } else {
      k := RefusedSeen(calls[1..], trace[1..], j - 1);
    }
  }

  /** A phase that is refused memory, and has no call of stop(), does not succeed. */
  lemma RefusedFails(header: nat, log: Log, j: nat)
    requires Logged(header, log) && NeverStops(log.f.script) && j < |log.trace| && log.trace[j].result.Fails?
    ensures RunPhase(PhaseOfLog(log)).0 == -1
  {
    hide RunPhase, LeakCheck, RunOps, BlocksThen, EndOf, Seen;
    var k := RefusedSeen(log.f.script.calls, log.trace, j);
    NoStopSeen(log.f.script.calls, log.trace);
    FailureFails(PhaseOfLog(log), k);
  }

  /** The check has no meaning for a test that frees the last block that was there before it, for
      instance one that its setup allocated: that block holds the checkpoint. */
  lemma CheckpointFreed(header: nat, top: nat, m: Arena, log: Log)
    requires Logged(header, log) && log.f.Test? && log.before != [] && log.cp == LastOf(log.before)
    requires log.f.script.calls == [Heap(ClientRuns.ClientOp.Free(|log.before| - 1))]
    requires ClientRuns.Follows(header, top, m, log.before, log.trace)
    ensures log.dangling
  {
    hide *;
    var k := |log.before| - 1;
    LogIs(header, log);
    OnlyFree(log.f, log.trace, k);
    FreeIs(header, top, m, log.before, log.trace, k);
    FreedIs(log.before, k);
    Dangles(log.f, BlocksThen(header, log.before, log.trace), log.before, log.after, log.dangling, log.leaked);
  }

  lemma LogIs(header: nat, log: Log)
    requires Logged(header, log)
    ensures Distinct(log.before) && Reaches(log.f.script.calls, log.trace, EndOf(log.f, log.trace))
    ensures LeakCheck(log.f, EndOf(log.f, log.trace), BlocksThen(header, log.before, log.trace), log.cp, log.after,
              log.dangling, log.leaked)
  {
  }

  lemma FreeIs(header: nat, top: nat, m: Arena, before: seq<nat>, trace: seq<ClientRuns.Step>, k: nat)
    requires k < |before| && |trace| == 1 && trace[0].op == ClientRuns.ClientOp.Free(k)
    requires ClientRuns.Follows(header, top, m, before, trace)
    ensures !trace[0].result.Fails? && BlocksThen(header, before, trace) == Minus(before, before[k])
  {
    assert trace[1..] == [] && trace[0].allowed;
    assert ClientRuns.RunEvents(header, trace) == [Removed(before[k])];
    ClientRuns.OneEvent(before, Removed(before[k]));
    hide Minus, ClientRuns.RunEvents;
  }

  lemma FreedIs(before: seq<nat>, k: nat)
    requires Distinct(before) && k < |before|
    ensures before[k] !in Minus(before, before[k])
  {
    var rest := Minus(before, before[k]);
    hide Minus;
    MinusElements(before, k, rest);
    RestDistinct(before, k, rest);
  }

  lemma Dangles(f: Function, now: seq<nat>, before: seq<nat>, after: seq<nat>, dangling: bool, leaked: bool)
    requires f.Test? && before != [] && before[|before| - 1] !in now
    requires LeakCheck(f, Returns, now, LastOf(before), after, dangling, leaked)
    ensures dangling
  {
  }

  lemma OnlyFree(f: Function, trace: seq<ClientRuns.Step>, k: nat)
    requires f.Test? && f.script.calls == [Heap(ClientRuns.ClientOp.Free(k))]
    requires Reaches(f.script.calls, trace, EndOf(f, trace))
    ensures |trace| == 1 && trace[0].op == ClientRuns.ClientOp.Free(k)
    ensures !trace[0].result.Fails? ==> EndOf(f, trace) == Returns
  {
    assert f.script.calls[1..] == [] && HeapCalls(f.script.calls) == [f.script.calls[0].use];
    assert Seen(f.script.calls, []) == [] && EndOf(f, []) == Returns;
    assert RunOps(Nothing, []).1 == Returns;
    hide RunOps, HeapCalls;
    assert trace[1..] == [] && Seen(f.script.calls[1..], trace[1..]) == [];
  }
}
