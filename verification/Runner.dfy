// The runner: one test with its fixtures, and a group of tests. What a phase does to the framework and to
// the guarded heap comes from HeapPhases, what it returns from Phases.
module Runner {
  import opened Wrappers
  import opened Sequences
  import opened Words
  import opened Allocator
  import opened Phases
  import opened Framework
  import opened HeapPhases
  import opened Glob
  import ClientRuns

  /** struct CMUnitTest: a name and up to three functions, any of which may be null. A function is given
      by its calls (Script); a run of it by its log (Log), or by what the framework saw of it (Body). */
  datatype UnitTest<+F> = UnitTest(name: Option<string>, test: Option<F>, setup: Option<F>, teardown: Option<F>)

  datatype Status = NotStarted | Passed | Failed | Skipped | Error

  /** struct CMUnitTestState. */
  datatype TestState = TestState(test: UnitTest<Script>, status: Status)

  function SetupPhase(t: UnitTest<Body>): Phase {
    if t.setup.Some? then Phase.Setup(t.setup.value) else Empty
  }

  /** A test without a test function still runs the phase. */
  function TestPhase(t: UnitTest<Body>): Phase {
    if t.test.Some? then Phase.Test(t.test.value) else Empty
  }

  function TeardownPhase(t: UnitTest<Body>): Phase {
    if t.teardown.Some? then Phase.Teardown(t.teardown.value) else Empty
  }

  /** A function that frees nothing that is still stored (its typed mocks agree on their tags). */
  ghost predicate Sound(f: Option<Script>) {
    f.Some? ==> !RunFreesStored(Nothing, ApiCalls(f.value.calls))
  }

  ghost predicate SoundTest(t: UnitTest<Script>) {
    Sound(t.setup) && Sound(t.test) && Sound(t.teardown)
  }

  /** A function that declares no value to be returned 0 times. */
  ghost predicate Keeps(f: Option<Script>) {
    f.Some? ==> !RunLosesRecord(Nothing, ApiCalls(f.value.calls))
  }

  ghost predicate LosesNothing(t: UnitTest<Script>) {
    Keeps(t.setup) && Keeps(t.test) && Keeps(t.teardown)
  }

  // ---- One test

  ghost predicate SetupFails(t: UnitTest<Body>) { t.setup.Some? && RunPhase(SetupPhase(t)).0 != 0 }

  ghost predicate BodyFails(t: UnitTest<Body>) { RunPhase(TestPhase(t)).0 != 0 }

  ghost predicate TeardownFails(t: UnitTest<Body>) { t.teardown.Some? && RunPhase(TeardownPhase(t)).0 != 0 }

  ghost predicate BodySkips(t: UnitTest<Body>) { RunPhase(TestPhase(t)).1 }

  ghost predicate SetupSkips(t: UnitTest<Body>) { t.setup.Some? && RunPhase(SetupPhase(t)).1 }

  ghost predicate TeardownSkips(t: UnitTest<Body>) { t.teardown.Some? && RunPhase(TeardownPhase(t)).1 }

  /** The status a test ends with, if the skip flag was set when it started (pending). */
  ghost function StatusOf(t: UnitTest<Body>, pending: bool): Status {
    if SetupFails(t) || TeardownFails(t) then Error
    else if !BodyFails(t) then Passed
    else if pending || BodySkips(t) then Skipped
    else Failed
  }

  /** The skip flag after a test: only a failing body clears it. */
  ghost predicate PendingAfter(t: UnitTest<Body>, pending: bool) {
    if SetupFails(t) then pending || SetupSkips(t)
    else (pending && !BodyFails(t)) || TeardownSkips(t)
  }

  /** skip() ends a phase with a failure. */
  lemma SkipFails(ph: Phase)
    ensures RunPhase(ph).1 ==> RunPhase(ph).0 == -1
  {
  }

  /** A framework between two phases. */
  ghost predicate Quiet(c: Cmocka)
    reads c`running, c`stop, c.heap
  {
    && c.Valid() && c.State() == Nothing && !c.running && !c.stop
    && !c.heap.fault && c.heap.at.freed == {}
    && c.heap.mem.symbols == map[] && c.heap.mem.records.Keys == c.heap.loose && c.heap.mem.nodes == {}
  }

  /** What the framework saw of a run. */
  function BodyOf(log: Log): Body {
    Body(Seen(log.f.script.calls, log.trace), log.f.script.rc, log.leaked)
  }

  function BodyIn(log: Option<Log>): Option<Body> {
    if log.Some? then Some(BodyOf(log.value)) else None
  }

  function Shown(t: UnitTest<Log>): UnitTest<Body> {
    UnitTest(t.name, BodyIn(t.test), BodyIn(t.setup), BodyIn(t.teardown))
  }

  /** log is of a run of f that started with the given blocks and checkpoint. */
  ghost predicate Ran(header: nat, log: Log, f: Function, before: seq<nat>, cp: Option<nat>) {
    Logged(header, log) && log.f == f && log.before == before && log.cp == cp
  }

  /** A run of a function, if there is one. */
  ghost predicate RanIf(header: nat, log: Option<Log>, f: Option<Function>, before: seq<nat>, cp: Option<nat>) {
    (log.Some? <==> f.Some?) && (log.Some? ==> Ran(header, log.value, f.value, before, cp))
  }

  function After(log: Option<Log>, before: seq<nat>): seq<nat> {
    if log.Some? then log.value.after else before
  }

  /** The check for leaks came upon a checkpoint whose block is gone: what follows has no meaning. */
  predicate Dangling(log: Option<Log>) {
    log.Some? && log.value.dangling
  }

  function AsSetup(f: Option<Script>): Option<Function> {
    if f.Some? then Some(Function.Setup(f.value)) else None
  }

  function AsTest(f: Option<Script>): Option<Function> {
    if f.Some? then Some(Function.Test(f.value)) else None
  }

  function AsTeardown(f: Option<Script>): Option<Function> {
    if f.Some? then Some(Function.Teardown(f.value)) else None
  }

  /** A run of the test t, from the given blocks to those after it. The check after the teardown looks
      at what was allocated since the setup began, if there was one. */
  ghost predicate Plays(header: nat, t: UnitTest<Script>, seen: UnitTest<Log>, blocks: seq<nat>, after: seq<nat>,
                        dangling: bool)
  {
    var b1 := After(seen.setup, blocks);
    var b2 := After(seen.test, b1);
    && seen.name == t.name
    && RanIf(header, seen.setup, AsSetup(t.setup), blocks, LastOf(blocks)) && !Dangling(seen.setup)
    && if SetupFails(Shown(seen)) then seen.test.None? && seen.teardown.None? && after == b1 && !dangling
       else
         && RanIf(header, seen.test, AsTest(t.test), b1, LastOf(b1))
         && if Dangling(seen.test) then seen.teardown.None? && after == b2 && dangling
            else
              && RanIf(header, seen.teardown, AsTeardown(t.teardown), b2, LastOf(if t.setup.Some? then blocks else b2))
              && after == After(seen.teardown, b2) && dangling == Dangling(seen.teardown)
  }

  /** A phase of a quiet framework whose function is sound ends in a quiet one. */
  method RunPhaseQuietly(c: Cmocka, a: Allocator, f: Function, heapCheckPoint: Option<Option<nat>>)
    returns (rc: int, dangling: bool, ghost log: Log)
    requires Quiet(c) && ClientRuns.Clean(a) && Sound(Some(f.script))
    modifies c, c.heap, a
    ensures ClientRuns.Clean(a) && log.after == a.blocks && log.dangling == dangling
    ensures Ran(a.header, log, f, old(a.blocks),
              if heapCheckPoint.Some? then heapCheckPoint.value else LastOf(old(a.blocks)))
    ensures !dangling ==>
              && Quiet(c)
              && rc == RunPhase(PhaseOfLog(log)).0 && c.skip == (old(c.skip) || RunPhase(PhaseOfLog(log)).1)
              && old(c.heap.loose) <= c.heap.loose
              && (Keeps(Some(f.script)) ==> c.heap.loose == old(c.heap.loose))
  {
    hide Cmocka.Valid, Cmocka.State, RunPhase, RunFreesStored, RunLosesRecord, Logged, ApiCalls, Seen;
    ghost var orphans;
    rc, dangling, log, orphans := RunOneTestOrFixture(c, a, f, heapCheckPoint);
    SeenSound(Nothing, f.script.calls, log.trace);
  }

  /** The phase of a test without a test function. */
  method RunNoFunction(c: Cmocka) returns (rc: int)
    requires Quiet(c)
    modifies c, c.heap
    ensures Quiet(c) && c.heap.loose == old(c.heap.loose)
    ensures rc == RunPhase(Empty).0 && c.skip == (old(c.skip) || RunPhase(Empty).1)
  {
    hide Cmocka.Valid, Cmocka.State, RunPhase;
    assert !RunFreesStored(Nothing, []) && !RunLosesRecord(Nothing, []);
    ghost var orphans;
    rc, orphans := c.RunOneTestOrFixture(Empty);
  }

  /** The phase that was run, if one was. */
  function PhaseIn(log: Option<Log>): Phase {
    if log.Some? then PhaseOfLog(log.value) else Empty
  }

  /** A fixture, or the function of a test: without one, nothing runs, but for the empty phase of a test
      without a test function. */
  method RunPart(c: Cmocka, a: Allocator, f: Option<Function>, heapCheckPoint: Option<Option<nat>>, empty: bool)
    returns (rc: int, dangling: bool, ghost log: Option<Log>)
    requires Quiet(c) && ClientRuns.Clean(a) && (f.Some? ==> Sound(Some(f.value.script)))
    modifies c, c.heap, a
    ensures ClientRuns.Clean(a) && a.blocks == After(log, old(a.blocks)) && dangling == Dangling(log)
    ensures RanIf(a.header, log, f, old(a.blocks),
              if heapCheckPoint.Some? then heapCheckPoint.value else LastOf(old(a.blocks)))
    ensures !dangling ==>
              && Quiet(c)
              && var r := if empty then RunPhase(PhaseIn(log)) else ReturnOf(log);
              && rc == r.0 && c.skip == (old(c.skip) || r.1)
              && old(c.heap.loose) <= c.heap.loose
              && ((f.Some? ==> Keeps(Some(f.value.script))) ==> c.heap.loose == old(c.heap.loose))
  {
    hide Quiet, RunPhase, Sound, Keeps, Ran, ClientRuns.Clean, PhaseOfLog;
    rc, dangling, log := 0, false, None;
    if f.Some? {
      ghost var run;
      rc, dangling, run := RunPhaseQuietly(c, a, f.value, heapCheckPoint);
      log := Some(run);
    } else if empty {
      rc := RunNoFunction(c);
    }
  }

  /** The status of a test whose function returned rc; the skip flag is used up by a failure. */
  method MarkTest(c: Cmocka, states: array<TestState>, i: nat, rc: int)
    requires i < states.Length
    modifies c`skip, states
    ensures forall k :: 0 <= k < states.Length && k != i ==> states[k] == old(states[k])
    ensures states[i] == TestState(old(states[i].test),
                           if rc == 0 then Passed else if old(c.skip) then Skipped else Failed)
    ensures c.skip == (old(c.skip) && rc == 0)
  {
    var t := states[i].test;
    if rc == 0 {
      states[i] := TestState(t, Passed);
    } else {
      if c.skip {
        states[i] := TestState(t, Skipped);
        c.skip := false;
      } else {
        states[i] := TestState(t, Failed);
      }
    }
  }

  /** cmocka_run_one_tests. */
  method RunOneTests(c: Cmocka, a: Allocator, states: array<TestState>, i: nat)
    returns (rc: int, dangling: bool, ghost seen: UnitTest<Log>)
    requires Quiet(c) && ClientRuns.Clean(a) && i < states.Length && SoundTest(states[i].test)
    modifies c, c.heap, a, states
    ensures ClientRuns.Clean(a)
    ensures forall k :: 0 <= k < states.Length && k != i ==> states[k] == old(states[k])
    ensures Plays(a.header, old(states[i].test), seen, old(a.blocks), a.blocks, dangling)
    ensures !dangling ==>
              && Quiet(c)
              && states[i] == TestState(old(states[i].test), StatusOf(Shown(seen), old(c.skip)))
              && (rc == 0 <==> states[i].status != Error)
              && (c.skip <==> PendingAfter(Shown(seen), old(c.skip)))
              && old(c.heap.loose) <= c.heap.loose
              && (LosesNothing(old(states[i].test)) ==> c.heap.loose == old(c.heap.loose))
  {
    hide *;
    var t := states[i].test;
    PartsOf(t);
    ghost var blocks, skip0 := a.blocks, c.skip;
    ghost var setup, test, teardown: Option<Log>;
    seen := UnitTest(t.name, None, None, None);
    ClientRuns.IsDistinct(a);
    var cp := a.CheckPoint();
    var checkPoint := if t.setup.Some? then Some(cp) else None;
    rc, dangling, setup := RunPart(c, a, AsSetup(t.setup), checkPoint, false);
    SetupRan(a.header, setup, AsSetup(t.setup), blocks, LastOf(blocks));
    if rc != 0 {
      states[i] := TestState(t, Error);
      seen := UnitTest(t.name, None, setup, None);
      SetupFailed(a.header, t, setup, blocks, skip0);
      return;
    }
    rc, dangling, test, teardown := RunTestAndTeardown(c, a, states, i, checkPoint);
    seen := UnitTest(t.name, test, setup, teardown);
    TestPlayed(a.header, t, setup, test, teardown, blocks, skip0);
  }

  /** The status of a test whose setup went well, from what its function and its teardown returned. */
  ghost function Result(pending: bool, test: (int, bool), teardown: (int, bool)): Status {
    if teardown.0 != 0 then Error else if test.0 == 0 then Passed else if pending || test.1 then Skipped else Failed
  }

  ghost function ReturnOf(log: Option<Log>): (int, bool) {
    if log.Some? then RunPhase(PhaseIn(log)) else (0, false)
  }

  /** The function of a test, and its teardown. */
  method RunTestAndTeardown(c: Cmocka, a: Allocator, states: array<TestState>, i: nat,
                            checkPoint: Option<Option<nat>>)
    returns (rc: int, dangling: bool, ghost test: Option<Log>, ghost teardown: Option<Log>)
    requires Quiet(c) && ClientRuns.Clean(a) && i < states.Length && SoundTest(states[i].test)
    modifies c, c.heap, a, states
    ensures ClientRuns.Clean(a)
    ensures forall k :: 0 <= k < states.Length && k != i ==> states[k] == old(states[k])
    ensures var t, b1 := old(states[i].test), old(a.blocks);
            && RanIf(a.header, test, AsTest(t.test), b1, LastOf(b1)) && a.blocks == After(teardown, After(test, b1))
            && (Dangling(test) ==> teardown.None? && dangling)
            && (!Dangling(test) ==>
                  && RanIf(a.header, teardown, AsTeardown(t.teardown), After(test, b1),
                       if checkPoint.Some? then checkPoint.value else LastOf(After(test, b1)))
                  && dangling == Dangling(teardown))
    ensures !dangling ==>
              var t, pending := old(states[i].test), old(c.skip);
              && Quiet(c)
              && states[i] == TestState(t, Result(pending, RunPhase(PhaseIn(test)), ReturnOf(teardown)))
              && (rc == 0 <==> states[i].status != Error)
              && (c.skip <==> ((pending || RunPhase(PhaseIn(test)).1) && RunPhase(PhaseIn(test)).0 == 0)
                              || ReturnOf(teardown).1)
              && old(c.heap.loose) <= c.heap.loose
              && (LosesNothing(t) ==> c.heap.loose == old(c.heap.loose))
  {
    hide Quiet, RunPhase, Sound, Keeps, Ran, RanIf, ClientRuns.Clean, PhaseIn, SoundTest, LosesNothing;
    hide AsSetup, AsTest, AsTeardown;
    var t := states[i].test;
    PartsOf(t);
    test, teardown := None, None;
    rc, dangling, test := RunPart(c, a, AsTest(t.test), None, true);
    if dangling {
      return;
    }
    MarkTest(c, states, i, rc);
    rc, dangling, teardown := RunPart(c, a, AsTeardown(t.teardown), checkPoint, false);
    if !dangling && rc != 0 {
      states[i] := TestState(t, Error);
    }
  }

  /** What holds of the functions of a test holds of each. */
  lemma PartsOf(t: UnitTest<Script>)
    ensures (AsSetup(t.setup).Some? <==> t.setup.Some?) && (AsSetup(t.setup).Some? ==> AsSetup(t.setup).value.Setup?)
    ensures AsTeardown(t.teardown).Some? <==> t.teardown.Some?
    ensures SoundTest(t) ==>
              && (AsSetup(t.setup).Some? ==> Sound(Some(AsSetup(t.setup).value.script)))
              && (AsTest(t.test).Some? ==> Sound(Some(AsTest(t.test).value.script)))
              && (AsTeardown(t.teardown).Some? ==> Sound(Some(AsTeardown(t.teardown).value.script)))
    ensures LosesNothing(t) ==>
              && (AsSetup(t.setup).Some? ==> Keeps(Some(AsSetup(t.setup).value.script)))
              && (AsTest(t.test).Some? ==> Keeps(Some(AsTest(t.test).value.script)))
              && (AsTeardown(t.teardown).Some? ==> Keeps(Some(AsTeardown(t.teardown).value.script)))
  {
    hide RunFreesStored, RunLosesRecord;
  }

  lemma SetupRan(header: nat, log: Option<Log>, f: Option<Function>, before: seq<nat>, cp: Option<nat>)
    requires RanIf(header, log, f, before, cp) && (f.Some? ==> f.value.Setup?)
    ensures (log.Some? <==> f.Some?) && !Dangling(log) && (log.None? ==> ReturnOf(log) == (0, false))
  {
  }

  lemma SetupFailed(header: nat, t: UnitTest<Script>, setup: Option<Log>, blocks: seq<nat>, skip0: bool)
    requires t.setup.Some? && RanIf(header, setup, AsSetup(t.setup), blocks, LastOf(blocks)) && ReturnOf(setup).0 != 0
    ensures var seen := UnitTest(t.name, None, setup, None);
            && Plays(header, t, seen, blocks, After(setup, blocks), false) && StatusOf(Shown(seen), skip0) == Error
            && (PendingAfter(Shown(seen), skip0) <==> skip0 || ReturnOf(setup).1)
  {
    hide RunPhase, Logged;
    SetupRan(header, setup, AsSetup(t.setup), blocks, LastOf(blocks));
  }

  lemma TestPlayed(header: nat, t: UnitTest<Script>, setup: Option<Log>, test: Option<Log>, teardown: Option<Log>,
                   blocks: seq<nat>, skip0: bool)
    requires RanIf(header, setup, AsSetup(t.setup), blocks, LastOf(blocks)) && ReturnOf(setup).0 == 0
    requires var b1 := After(setup, blocks);
             && RanIf(header, test, AsTest(t.test), b1, LastOf(b1))
             && if Dangling(test) then teardown.None?
                else RanIf(header, teardown, AsTeardown(t.teardown), After(test, b1),
                       LastOf(if t.setup.Some? then blocks else After(test, b1)))
    ensures var seen, rc := UnitTest(t.name, test, setup, teardown), RunPhase(PhaseIn(test));
            && Plays(header, t, seen, blocks, After(teardown, After(test, After(setup, blocks))),
                 Dangling(test) || Dangling(teardown))
            && StatusOf(Shown(seen), skip0) == Result(skip0, rc, ReturnOf(teardown)) && !ReturnOf(setup).1
            && (PendingAfter(Shown(seen), skip0) <==> ((skip0 || rc.1) && rc.0 == 0) || ReturnOf(teardown).1)
  {
    hide RunPhase, Ran, StatusOf, PendingAfter, PhaseIn, ReturnOf, Result, Shown;
    var seen := UnitTest(t.name, test, setup, teardown);
    SetupRan(header, setup, AsSetup(t.setup), blocks, LastOf(blocks));
    PhasesShown(header, t, seen, blocks);
    StatusShown(seen, skip0);
  }

  /** The phases of a run of a test, as they are shown. */
  lemma PhasesShown(header: nat, t: UnitTest<Script>, seen: UnitTest<Log>, blocks: seq<nat>)
    requires RanIf(header, seen.setup, AsSetup(t.setup), blocks, LastOf(blocks))
    requires var b1 := After(seen.setup, blocks);
             && RanIf(header, seen.test, AsTest(t.test), b1, LastOf(b1))
             && if Dangling(seen.test) then seen.teardown.None?
                else RanIf(header, seen.teardown, AsTeardown(t.teardown), After(seen.test, b1),
                       LastOf(if t.setup.Some? then blocks else After(seen.test, b1)))
    ensures SetupPhase(Shown(seen)) == PhaseIn(seen.setup) && TestPhase(Shown(seen)) == PhaseIn(seen.test)
    ensures TeardownPhase(Shown(seen)) == PhaseIn(seen.teardown)
  {
    hide Logged, LastOf;
  }

  lemma StatusShown(seen: UnitTest<Log>, skip0: bool)
    requires ReturnOf(seen.setup).0 == 0
    requires SetupPhase(Shown(seen)) == PhaseIn(seen.setup) && TestPhase(Shown(seen)) == PhaseIn(seen.test)
    requires TeardownPhase(Shown(seen)) == PhaseIn(seen.teardown)
    ensures var rc := RunPhase(PhaseIn(seen.test));
            && StatusOf(Shown(seen), skip0) == Result(skip0, rc, ReturnOf(seen.teardown))
            && !ReturnOf(seen.setup).1 && !SetupFails(Shown(seen))
            && (PendingAfter(Shown(seen), skip0) <==> ((skip0 || rc.1) && rc.0 == 0) || ReturnOf(seen.teardown).1)
  {
    SkipFails(PhaseIn(seen.setup));
    SkipFails(PhaseIn(seen.test));
    hide RunPhase;
  }

  // ---- The status of a test, in terms of the calls of its functions

  ghost predicate Well(header: nat, log: Option<Log>) {
    log.Some? ==> WentWell(header, log.value)
  }

  /** A test whose setup or teardown did not go well is an error. Otherwise it passed if its function went
      well; if not, it counts as skipped if its function came to a call of skip(), or if the flag was set. */
  lemma StatusExactly(header: nat, t: UnitTest<Script>, seen: UnitTest<Log>, blocks: seq<nat>, after: seq<nat>,
                      pending: bool)
    requires Plays(header, t, seen, blocks, after, false)
    ensures StatusOf(Shown(seen), pending) ==
            if !Well(header, seen.setup) || !Well(header, seen.teardown) then Error
            else if Well(header, seen.test) then Passed
            else if pending || ReachesSkip(Nothing, SeenIn(seen.test.value)) then Skipped
            else Failed
    ensures Well(header, seen.setup) <==> !SetupFails(Shown(seen))
  {
    hide RunPhase, WentWell, ReachesSkip, Logged, Plays, LastOf;
    PlaysIs(header, t, seen, blocks, after);
    PartExactly(header, seen.setup);
    PartExactly(header, seen.test);
    PartExactly(header, seen.teardown);
    EmptyPasses();
  }

  /** What Plays says, if no checkpoint dangled: which functions ran, where, and with which checkpoint. */
  lemma PlaysIs(header: nat, t: UnitTest<Script>, seen: UnitTest<Log>, blocks: seq<nat>, after: seq<nat>)
    requires Plays(header, t, seen, blocks, after, false)
    ensures forall log :: log in [seen.setup, seen.test, seen.teardown] && log.Some? ==>
              Logged(header, log.value) && !log.value.dangling
    ensures SetupPhase(Shown(seen)) == PhaseIn(seen.setup) && TestPhase(Shown(seen)) == PhaseIn(seen.test)
    ensures TeardownPhase(Shown(seen)) == PhaseIn(seen.teardown)
    ensures SetupFails(Shown(seen)) ==> seen.test.None? && seen.teardown.None?
  {
    hide Logged, RunPhase, LastOf;
    assert forall log :: log in [seen.setup, seen.test, seen.teardown] <==>
             log == seen.setup || log == seen.test || log == seen.teardown;
  }

  lemma PartExactly(header: nat, log: Option<Log>)
    requires log.Some? ==> Logged(header, log.value) && !log.value.dangling
    ensures log.Some? ==> (RunPhase(PhaseIn(log)).0 == 0 <==> WentWell(header, log.value))
    ensures log.Some? ==> (RunPhase(PhaseIn(log)).1 <==> ReachesSkip(Nothing, SeenIn(log.value)))
  {
    hide RunPhase, WentWell, ReachesSkip, Logged;
    if log.Some? {
      PhaseExactly(header, log.value);
    }
  }

  lemma EmptyPasses()
    ensures RunPhase(Empty) == (0, false)
  {
    SweepEmpty();
  }

  lemma SweepEmpty()
    ensures !HasLeftovers(Nothing)
  {
  }

  /** Between fixtures that went well, a test passes by what it does itself: blocks that its setup allocated
      are not held against it. */
  lemma PassedByItself(header: nat, t: UnitTest<Script>, seen: UnitTest<Log>, blocks: seq<nat>, after: seq<nat>,
                       pending: bool)
    requires Plays(header, t, seen, blocks, after, false) && seen.test.Some?
    requires Well(header, seen.setup) && Well(header, seen.teardown)
    requires var log := seen.test.value;
             LastOf(log.before).Some? ==> Removed(LastOf(log.before).value) !in ClientRuns.RunEvents(header, log.trace)
    ensures var log := seen.test.value;
            StatusOf(Shown(seen), pending) == Passed <==>
            && AllMet(UntilStop(SeenIn(log)))
            && (UntilStop(SeenIn(log)) == SeenIn(log) ==> RunList([], ClientRuns.RunEvents(header, log.trace)) == [])
  {
    hide *;
    StatusExactly(header, t, seen, blocks, after, pending);
    TestRan(header, t, seen, blocks, after);
    PhaseExactly(header, seen.test.value);
    TestPassesExactly(header, seen.test.value);
    WellIs(header, seen.test);
  }

  lemma TestRan(header: nat, t: UnitTest<Script>, seen: UnitTest<Log>, blocks: seq<nat>, after: seq<nat>)
    requires Plays(header, t, seen, blocks, after, false) && seen.test.Some?
    ensures t.test.Some? && seen.test.value.f == Function.Test(t.test.value)
    ensures Logged(header, seen.test.value) && !seen.test.value.dangling
    ensures seen.test.value.cp == LastOf(seen.test.value.before) && seen.test.value.before == After(seen.setup, blocks)
  {
    hide Logged, RunPhase, LastOf;
  }

  lemma WellIs(header: nat, log: Option<Log>)
    ensures Well(header, log) <==> (log.Some? ==> WentWell(header, log.value))
  {
  }

  /** A setup or a teardown that returns something else than 0 makes the test an error, whatever else
      happens; after such a setup, neither the test nor the teardown runs. */
  lemma NonzeroIsError(header: nat, t: UnitTest<Script>, seen: UnitTest<Log>, blocks: seq<nat>, after: seq<nat>,
                       pending: bool)
    requires Plays(header, t, seen, blocks, after, false)
    ensures t.setup.Some? && NeverStops(t.setup.value) && t.setup.value.rc != 0 ==>
              StatusOf(Shown(seen), pending) == Error && seen.test.None? && seen.teardown.None?
    ensures t.teardown.Some? && NeverStops(t.teardown.value) && t.teardown.value.rc != 0 ==>
              StatusOf(Shown(seen), pending) == Error
  {
    hide *;
    StatusExactly(header, t, seen, blocks, after, pending);
    PlaysIs(header, t, seen, blocks, after);
    FixturesRan(header, t, seen, blocks, after);
    NonzeroFails(header, seen.setup);
    NonzeroFails(header, seen.teardown);
  }

  lemma FixturesRan(header: nat, t: UnitTest<Script>, seen: UnitTest<Log>, blocks: seq<nat>, after: seq<nat>)
    requires Plays(header, t, seen, blocks, after, false)
    ensures t.setup.Some? ==> seen.setup.Some? && seen.setup.value.f == Function.Setup(t.setup.value)
    ensures t.teardown.Some? && !SetupFails(Shown(seen)) ==>
              seen.teardown.Some? && seen.teardown.value.f == Function.Teardown(t.teardown.value)
  {
    hide Logged, RunPhase, LastOf;
  }

  /** Without a setup, a teardown answers for the blocks that it allocated itself, and for no others. */
  lemma TeardownByItself(header: nat, t: UnitTest<Script>, seen: UnitTest<Log>, blocks: seq<nat>, after: seq<nat>)
    requires Plays(header, t, seen, blocks, after, false) && t.setup.None? && seen.teardown.Some?
    requires var log := seen.teardown.value;
             LastOf(log.before).Some? ==> Removed(LastOf(log.before).value) !in ClientRuns.RunEvents(header, log.trace)
    ensures var log := seen.teardown.value;
            Well(header, seen.teardown) <==>
            && AllMet(UntilStop(SeenIn(log)))
            && (UntilStop(SeenIn(log)) == SeenIn(log) ==>
                  log.f.script.rc == 0 && RunList([], ClientRuns.RunEvents(header, log.trace)) == [])
  {
    hide *;
    var log := seen.teardown.value;
    TeardownRan(header, t, seen, blocks, after);
    NothingBehind(header, log);
    TeardownWell(header, log);
    WellIs(header, seen.teardown);
  }

  lemma TeardownRan(header: nat, t: UnitTest<Script>, seen: UnitTest<Log>, blocks: seq<nat>, after: seq<nat>)
    requires Plays(header, t, seen, blocks, after, false) && t.setup.None? && seen.teardown.Some?
    ensures var log := seen.teardown.value; Logged(header, log) && log.cp == LastOf(log.before) && log.f.Teardown?
  {
    hide Logged, RunPhase, LastOf;
  }

  lemma TeardownWell(header: nat, log: Log)
    requires log.f.Teardown?
    ensures WentWell(header, log) <==>
            && AllMet(UntilStop(SeenIn(log)))
            && (UntilStop(SeenIn(log)) == SeenIn(log) ==>
                  log.f.script.rc == 0 && Behind(BlocksThen(header, log.before, log.trace), log.cp) == [])
  {
    hide AllMet, UntilStop, SeenIn, Behind, BlocksThen;
  }

  lemma NonzeroFails(header: nat, log: Option<Log>)
    ensures log.Some? && !log.value.f.Test? && NeverStops(log.value.f.script) && log.value.f.script.rc != 0 ==>
              !Well(header, log)
  {
    hide AllMet, BlocksThen, Behind;
    if log.Some? && NeverStops(log.value.f.script) {
      NoStopSeen(log.value.f.script.calls, log.value.trace);
      NeverUntil(SeenIn(log.value));
    }
  }

  lemma {:induction false} NeverUntil(ops: seq<Op>)
    requires forall i :: 0 <= i < |ops| ==> !ops[i].Stop?
    ensures FirstStop(ops) == |ops| && UntilStop(ops) == ops
    decreases |ops|
  {
    if ops != [] {
      NeverUntil(ops[1..]);
    }
  }

  // ---- Which tests run

  ghost predicate Chosen(t: UnitTest<Script>, testFilter: Option<string>, skipFilter: Option<string>) {
    && t.name.Some? && (t.test.Some? || t.setup.Some? || t.teardown.Some?)
    && (testFilter.Some? ==> Matches(t.name.value, AsRead(testFilter.value)))
    && (skipFilter.Some? ==> !Matches(t.name.value, AsRead(skipFilter.value)))
  }

  ghost function Selected(tests: seq<UnitTest<Script>>, testFilter: Option<string>,
                          skipFilter: Option<string>): (r: seq<UnitTest<Script>>)
    ensures |r| <= |tests|
    ensures forall t :: t in r <==> t in tests && Chosen(t, testFilter, skipFilter)
  {
    if tests == [] then [] else
    var n := |tests| - 1;
    var r := Selected(tests[..n], testFilter, skipFilter);
    assert tests == tests[..n] + [tests[n]];
    if Chosen(tests[n], testFilter, skipFilter) then r + [tests[n]] else r
  }

  /** r is read off tests at increasing positions. */
  ghost predicate ReadOff(tests: seq<UnitTest<Script>>, r: seq<UnitTest<Script>>, positions: seq<nat>) {
    && |positions| == |r|
    && (forall i :: 0 <= i < |r| ==> positions[i] < |tests| && r[i] == tests[positions[i]])
    && (forall i, j :: 0 <= i < j < |positions| ==> positions[i] < positions[j])
  }

  lemma ReadOffNext(tests: seq<UnitTest<Script>>, r: seq<UnitTest<Script>>, positions: seq<nat>)
    requires tests != [] && ReadOff(tests[..|tests| - 1], r, positions)
    ensures ReadOff(tests, r, positions)
    ensures ReadOff(tests, r + [tests[|tests| - 1]], positions + [|tests| - 1])
    ensures |tests| - 1 !in positions
  {
  }

  /** The selection keeps the order: it is read off at increasing positions, which are exactly
      those of the tests that pass the filters. */
  lemma {:induction false} SelectionInOrder(tests: seq<UnitTest<Script>>, testFilter: Option<string>,
                                            skipFilter: Option<string>)
    returns (positions: seq<nat>)
    ensures ReadOff(tests, Selected(tests, testFilter, skipFilter), positions)
    ensures forall k :: 0 <= k < |tests| ==> (k in positions <==> Chosen(tests[k], testFilter, skipFilter))
    ensures forall k :: 0 <= k < |tests| ==>
              (k in positions <==> tests[k] in Selected(tests, testFilter, skipFilter))
    decreases |tests|
  {
    hide Chosen, ReadOff;
    if tests == [] {
      positions := [];
      NoneReadOff();
    } else {
      var n := |tests| - 1;
      var before := SelectionInOrder(tests[..n], testFilter, skipFilter);
      ReadOffNext(tests, Selected(tests[..n], testFilter, skipFilter), before);
      positions := if Chosen(tests[n], testFilter, skipFilter) then before + [n] else before;
      assert forall k :: 0 <= k < n ==> tests[..n][k] == tests[k];
      assert forall k :: k in before + [n] <==> k in before || k == n;
    }
  }

  lemma NoneReadOff()
    ensures ReadOff([], [], [])
  {
  }

  /** Whether a test is selected. */
  method IsChosen(t: UnitTest<Script>, testFilter: Option<string>, skipFilter: Option<string>) returns (chosen: bool)
    ensures chosen <==> Chosen(t, testFilter, skipFilter)
  {
    hide Matches, AsRead, Tail;
    chosen := t.name.Some? && (t.test.Some? || t.setup.Some? || t.teardown.Some?);
    if chosen && testFilter.Some? {
      chosen := CStrMatch(t.name, testFilter);
    }
    if chosen && skipFilter.Some? {
      var ok := CStrMatch(t.name, skipFilter);
      chosen := !ok;
    }
  }

  /** The first loop of the group runner. */
  method SelectTests(tests: seq<UnitTest<Script>>, testFilter: Option<string>, skipFilter: Option<string>)
    returns (states: array<TestState>, total: nat)
    ensures fresh(states) && states.Length == |tests|
    ensures total == |Selected(tests, testFilter, skipFilter)|
    ensures forall k :: 0 <= k < total ==>
              states[k] == TestState(Selected(tests, testFilter, skipFilter)[k], NotStarted)
  {
    hide Chosen, Selected;
    states := new TestState[|tests|](_ => TestState(UnitTest(None, None, None, None), NotStarted));
    total := 0;
    NoneSelected(testFilter, skipFilter);
    ghost var run := [];
    assert tests[..0] == [];
    for i := 0 to |tests|
      invariant run == Selected(tests[..i], testFilter, skipFilter) && total == |run|
      invariant forall k :: 0 <= k < total ==> states[k] == TestState(run[k], NotStarted)
    {
      SelectedNext(tests, i, testFilter, skipFilter);
      var chosen := IsChosen(tests[i], testFilter, skipFilter);
      if chosen {
        states[total] := TestState(tests[i], NotStarted);
        total := total + 1;
        run := run + [tests[i]];
      }
    }
    assert tests[..|tests|] == tests;
  }

  lemma NoneSelected(testFilter: Option<string>, skipFilter: Option<string>)
    ensures Selected([], testFilter, skipFilter) == []
  {
  }

  lemma SelectedNext(tests: seq<UnitTest<Script>>, i: nat, testFilter: Option<string>, skipFilter: Option<string>)
    requires i < |tests|
    ensures Selected(tests[..i + 1], testFilter, skipFilter) ==
            Selected(tests[..i], testFilter, skipFilter)
            + if Chosen(tests[i], testFilter, skipFilter) then [tests[i]] else []
    ensures |Selected(tests[..i], testFilter, skipFilter)| <= i
  {
    hide Chosen;
    assert tests[..i + 1][..i] == tests[..i] && tests[..i + 1][i] == tests[i];
  }

  // ---- What the filters do

  /** A test with a name and at least one function: the others are passed over. */
  predicate Runnable(t: UnitTest<Script>) {
    t.name.Some? && !(t.test.None? && t.setup.None? && t.teardown.None?)
  }

  lemma NoFilters(tests: seq<UnitTest<Script>>)
    ensures forall t :: t in Selected(tests, None, None) <==> t in tests && Runnable(t)
  {
  }

  /** A filter that is a plain name selects exactly the tests of that name; as a skip filter, exactly the
      others. */
  lemma FilterByName(tests: seq<UnitTest<Script>>, name: string)
    requires Literal(name)
    ensures forall t :: t in Selected(tests, Some(name), None) <==> t in tests && Runnable(t) && t.name == Some(name)
    ensures forall t :: t in Selected(tests, None, Some(name)) <==> t in tests && Runnable(t) && t.name != Some(name)
  {
    LiteralAsRead(name);
    forall s: string ensures Matches(s, name) <==> s == name {
      LiteralMatches(s, name);
    }
    hide Matches, AsRead;
  }

  /** For any pattern, what it selects as a test filter and what it leaves as a skip filter are the two parts
      of the tests that can run. */
  lemma FiltersSplit(tests: seq<UnitTest<Script>>, pattern: string)
    ensures forall t :: t in tests && Runnable(t) ==>
              (t in Selected(tests, Some(pattern), None) <==> t !in Selected(tests, None, Some(pattern)))
    ensures forall t :: t in Selected(tests, Some(pattern), None) || t in Selected(tests, None, Some(pattern)) ==>
              t in tests && Runnable(t)
  {
    hide Matches, AsRead;
  }

  /** With both filters, a test must get past each of them. */
  lemma FiltersCombine(tests: seq<UnitTest<Script>>, testFilter: Option<string>, skipFilter: Option<string>)
    ensures forall t :: t in Selected(tests, testFilter, skipFilter) <==>
              t in Selected(tests, testFilter, None) && t in Selected(tests, None, skipFilter)
  {
    hide Matches, AsRead;
  }

  /** For a pattern that does not end in two stars, the test filter selects what the documented language
      says. */
  lemma FilterByPattern(tests: seq<UnitTest<Script>>, pattern: string)
    requires Tail(pattern) < 2
    ensures forall t :: t in Selected(tests, Some(pattern), None) <==>
              t in tests && Runnable(t) && Matches(t.name.value, pattern)
  {
    AsReadMeaning(pattern);
    hide Matches, AsRead, Tail;
  }

  // ---- The skip flag over a run of tests

  /** The skip flag when test i of a run starts. */
  ghost predicate PendingBefore(run: seq<UnitTest<Body>>, skip0: bool, i: nat)
    requires i <= |run|
  {
    if i == 0 then skip0 else PendingAfter(run[i - 1], PendingBefore(run, skip0, i - 1))
  }

  ghost function StatusAt(run: seq<UnitTest<Body>>, skip0: bool, i: nat): Status
    requires i < |run|
  {
    StatusOf(run[i], PendingBefore(run, skip0, i))
  }

  /** A fixture of the test that runs calls skip(). */
  ghost predicate FixtureSkips(t: UnitTest<Body>) {
    SetupSkips(t) || (!SetupFails(t) && TeardownSkips(t))
  }

  ghost predicate ClearsFlag(t: UnitTest<Body>) {
    !SetupFails(t) && BodyFails(t)
  }

  /** The flag is set when a test starts exactly if it was set by a fixture of an earlier test, or
      before the run, and no test body failed since. */
  lemma {:induction false} PendingExactly(run: seq<UnitTest<Body>>, skip0: bool, i: nat)
    requires i <= |run|
    ensures PendingBefore(run, skip0, i) <==>
            || (skip0 && forall k :: 0 <= k < i ==> !ClearsFlag(run[k]))
            || (exists j :: 0 <= j < i && FixtureSkips(run[j]) && forall k :: j < k < i ==> !ClearsFlag(run[k]))
    decreases i
  {
    hide RunPhase;
    if i > 0 {
      PendingExactly(run, skip0, i - 1);
      SkipFails(SetupPhase(run[i - 1]));
      assert PendingBefore(run, skip0, i) <==>
             FixtureSkips(run[i - 1]) || (PendingBefore(run, skip0, i - 1) && !ClearsFlag(run[i - 1]));
    }
  }

  /** A test is reported as skipped exactly if its body failed and either called skip() itself or
      found the flag set, and its fixtures ran well. */
  lemma SkippedExactly(run: seq<UnitTest<Body>>, skip0: bool, i: nat)
    requires i < |run|
    ensures StatusAt(run, skip0, i) == Skipped <==>
            && !SetupFails(run[i]) && !TeardownFails(run[i])
            && (BodySkips(run[i]) || (BodyFails(run[i]) && PendingBefore(run, skip0, i)))
  {
    hide RunPhase;
    SkipFails(TestPhase(run[i]));
  }

  /** If no fixture calls skip(), that is what the documentation promises: only a test that called
      skip() is skipped. */
  lemma SkippedOnlyByItself(run: seq<UnitTest<Body>>, i: nat)
    requires i < |run| && forall k :: 0 <= k < i ==> !FixtureSkips(run[k])
    ensures StatusAt(run, false, i) == Skipped <==> BodySkips(run[i]) && !SetupFails(run[i]) && !TeardownFails(run[i])
  {
    hide RunPhase;
    SkippedExactly(run, false, i);
    PendingExactly(run, false, i);
  }

  /** Otherwise it is not: after a setup that skipped, the next test that fails is reported as skipped. */
  lemma FailureReportedAsSkip()
    ensures exists run: seq<UnitTest<Body>> ::
              |run| == 2 && !BodySkips(run[1]) && BodyFails(run[1]) && StatusAt(run, false, 1) == Skipped
  {
    var skipping := UnitTest(Some("a"), Some(Body([], 0, false)), Some(Body([Op.Skip], 0, false)), None);
    var failing := UnitTest(Some("b"), Some(Body([Op.Fail], 0, false)), None, None);
    var run := [skipping, failing];
    assert RunOps(Nothing, [Op.Skip]).1 == Skips && RunOps(Nothing, [Op.Fail]).1 == End.Fails;
    assert RunPhase(SetupPhase(skipping)) == (-1, true) && RunPhase(TestPhase(failing)) == (-1, false);
    assert PendingBefore(run, false, 0) == false;
    assert PendingBefore(run, false, 1) == PendingAfter(run[0], false);
    assert StatusAt(run, false, 1) == Skipped;
  }

  ghost function Count(run: seq<UnitTest<Body>>, skip0: bool, n: nat, status: Status): nat
    requires n <= |run|
  {
    if n == 0 then 0 else Count(run, skip0, n - 1, status) + if StatusAt(run, skip0, n - 1) == status then 1 else 0
  }

  /** Every test that ran has one of four statuses. */
  lemma {:induction false} CountsAddUp(run: seq<UnitTest<Body>>, skip0: bool, n: nat)
    requires n <= |run|
    ensures Count(run, skip0, n, Passed) + Count(run, skip0, n, Failed)
            + Count(run, skip0, n, Skipped) + Count(run, skip0, n, Error) == n
    decreases n
  {
    hide StatusOf, PendingAfter;
    if n > 0 {
      CountsAddUp(run, skip0, n - 1);
      OneOfFour(run[n - 1], PendingBefore(run, skip0, n - 1));
    }
  }

  lemma OneOfFour(t: UnitTest<Body>, pending: bool)
    ensures StatusOf(t, pending) in {Passed, Failed, Skipped, Error}
  {
  }

  lemma {:induction false} NoneCounted(run: seq<UnitTest<Body>>, skip0: bool, n: nat, status: Status)
    requires n <= |run|
    ensures Count(run, skip0, n, status) == 0 <==> forall i :: 0 <= i < n ==> StatusAt(run, skip0, i) != status
    decreases n
  {
    hide StatusOf, PendingAfter;
    if n > 0 {
      NoneCounted(run, skip0, n - 1, status);
    }
  }

  // ---- The group

  datatype Totals = Totals(executed: nat, passed: nat, failed: nat, errors: nat, skipped: nat)

  /** How the group runner ends: it returns a code, or it calls exit(EXIT_FAILURE). */
  datatype Outcome = ReturnsCode(code: int) | Exited

  const WORD := 0x1_0000_0000

  /** The conversion (int) of a size_t. */
  function ToInt(n: nat): (r: int)
    ensures -0x8000_0000 <= r < 0x8000_0000 && r % WORD == n % WORD
  {
    var m := n % WORD;
    if m < 0x8000_0000 then m else m - WORD
  }

  ghost predicate SetupSucceeds(setup: Option<Body>) {
    setup.None? || RunPhase(Phase.Setup(setup.value)).0 == 0
  }

  ghost function ShownAll(seen: seq<UnitTest<Log>>): (r: seq<UnitTest<Body>>)
    ensures |r| == |seen| && forall i :: 0 <= i < |seen| ==> r[i] == Shown(seen[i])
  {
    seq(|seen|, i requires 0 <= i < |seen| => Shown(seen[i]))
  }

  /** The tests run one after the other, up to one with a dangling checkpoint; at holds the blocks before
      each of them, and after the last. */
  ghost predicate PlaysAll(header: nat, run: seq<UnitTest<Script>>, seen: seq<UnitTest<Log>>, at: seq<seq<nat>>,
                           dangling: bool)
  {
    && |seen| <= |run| && (if dangling then seen != [] else |seen| == |run|) && |at| == |seen| + 1
    && forall k :: 0 <= k < |seen| ==>
         Plays(header, run[k], seen[k], at[k], at[k + 1], dangling && k == |seen| - 1)
  }

  lemma PlaysOneMore(header: nat, run: seq<UnitTest<Script>>, n: nat, seen: seq<UnitTest<Log>>, at: seq<seq<nat>>,
                     next: UnitTest<Log>, after: seq<nat>, dangling: bool)
    requires n < |run| && PlaysAll(header, run[..n], seen, at, false)
    requires Plays(header, run[n], next, at[n], after, dangling)
    ensures PlaysAll(header, if dangling then run else run[..n + 1], seen + [next], at + [after], dangling)
  {
    hide Plays;
    var seen', at' := seen + [next], at + [after];
    forall k | 0 <= k < n + 1 ensures Plays(header, run[k], seen'[k], at'[k], at'[k + 1], dangling && k == n) {
      if k < n {
        assert run[..n][k] == run[k];
        assert Plays(header, run[..n][k], seen[k], at[k], at[k + 1], false);
      }
    }
  }

  /** One more test does not change what came before it. */
  lemma {:induction false} CountExtends(run: seq<UnitTest<Body>>, t: UnitTest<Body>, skip0: bool, n: nat,
                                        status: Status)
    requires n <= |run|
    ensures PendingBefore(run + [t], skip0, n) == PendingBefore(run, skip0, n)
    ensures Count(run + [t], skip0, n, status) == Count(run, skip0, n, status)
    ensures n < |run| ==> StatusAt(run + [t], skip0, n) == StatusAt(run, skip0, n)
    decreases n
  {
    hide StatusOf, PendingAfter;
    if n > 0 {
      CountExtends(run, t, skip0, n - 1, status);
    }
  }

  /** The totals and the flag after one more test. */
  lemma CountNext(seen: seq<UnitTest<Log>>, next: UnitTest<Log>, skip0: bool)
    ensures var run, run', n := ShownAll(seen), ShownAll(seen + [next]), |seen|;
            && run' == run + [Shown(next)]
            && PendingBefore(run', skip0, n + 1) == PendingAfter(Shown(next), PendingBefore(run, skip0, n))
            && StatusAt(run', skip0, n) == StatusOf(Shown(next), PendingBefore(run, skip0, n))
            && (forall k :: 0 <= k < n ==> StatusAt(run', skip0, k) == StatusAt(run, skip0, k))
            && forall st: Status {:trigger Count(run', skip0, n + 1, st)} ::
                 Count(run', skip0, n + 1, st) ==
                 Count(run, skip0, n, st) + if StatusAt(run', skip0, n) == st then 1 else 0
  {
    hide StatusOf, PendingAfter, Shown;
    var run, run', n := ShownAll(seen), ShownAll(seen + [next]), |seen|;
    assert run' == run + [Shown(next)];
    CountExtends(run, Shown(next), skip0, n, Passed);
    forall k | 0 <= k < n ensures StatusAt(run', skip0, k) == StatusAt(run, skip0, k) {
      CountExtends(run, Shown(next), skip0, k, Passed);
    }
    forall st: Status
      ensures Count(run', skip0, n + 1, st) ==
                Count(run, skip0, n, st) + if StatusAt(run', skip0, n) == st then 1 else 0
    {
      CountExtends(run, Shown(next), skip0, n, st);
    }
  }

  ghost predicate Counted(run: seq<UnitTest<Body>>, skip0: bool, totals: Totals) {
    var n := |run|;
    totals == Totals(n, Count(run, skip0, n, Passed), Count(run, skip0, n, Failed),
                     Count(run, skip0, n, Error), Count(run, skip0, n, Skipped))
  }

  /** The first n tests that end with the given status. */
  ghost function Ending(run: seq<UnitTest<Body>>, skip0: bool, n: nat, status: Status): set<nat>
    requires n <= |run|
  {
    set i: nat | i < n && StatusAt(run, skip0, i) == status
  }

  lemma {:induction false} CountIsSize(run: seq<UnitTest<Body>>, skip0: bool, n: nat, status: Status)
    requires n <= |run|
    ensures Count(run, skip0, n, status) == |Ending(run, skip0, n, status)|
    decreases n
  {
    hide *;
    NoneEnding(run, skip0, status);
    if n > 0 {
      CountIsSize(run, skip0, n - 1, status);
      EndingNext(run, skip0, n, status);
    }
  }

  lemma NoneEnding(run: seq<UnitTest<Body>>, skip0: bool, status: Status)
    ensures Ending(run, skip0, 0, status) == {} && Count(run, skip0, 0, status) == 0
  {
  }

  lemma EndingNext(run: seq<UnitTest<Body>>, skip0: bool, n: nat, status: Status)
    requires 0 < n <= |run|
    ensures var fewer, ends := Ending(run, skip0, n - 1, status), StatusAt(run, skip0, n - 1) == status;
            && |Ending(run, skip0, n, status)| == |fewer| + (if ends then 1 else 0)
            && Count(run, skip0, n, status) == Count(run, skip0, n - 1, status) + (if ends then 1 else 0)
  {
    hide *;
    CountUnfold(run, skip0, n, status);
    EndingIs(run, skip0, n - 1, status);
    EndingIs(run, skip0, n, status);
    var fewer := Ending(run, skip0, n - 1, status);
    if StatusAt(run, skip0, n - 1) == status {
      assert Ending(run, skip0, n, status) == fewer + {n - 1};
    } else {
      assert Ending(run, skip0, n, status) == fewer;
    }
  }

  lemma EndingIs(run: seq<UnitTest<Body>>, skip0: bool, n: nat, status: Status)
    requires n <= |run|
    ensures forall i: nat :: i in Ending(run, skip0, n, status) <==> i < n && StatusAt(run, skip0, i) == status
  {
    hide StatusAt;
  }

  lemma CountUnfold(run: seq<UnitTest<Body>>, skip0: bool, n: nat, status: Status)
    requires 0 < n <= |run|
    ensures Count(run, skip0, n, status) ==
            Count(run, skip0, n - 1, status) + if StatusAt(run, skip0, n - 1) == status then 1 else 0
  {
    hide StatusAt;
  }

  /** Each of the totals is the number of tests that ended that way. */
  lemma TotalsAreSizes(run: seq<UnitTest<Body>>, skip0: bool, totals: Totals)
    requires Counted(run, skip0, totals)
    ensures totals.executed == |run|
    ensures totals.passed == |set i: nat | i < |run| && StatusAt(run, skip0, i) == Passed|
    ensures totals.failed == |set i: nat | i < |run| && StatusAt(run, skip0, i) == Failed|
    ensures totals.errors == |set i: nat | i < |run| && StatusAt(run, skip0, i) == Error|
    ensures totals.skipped == |set i: nat | i < |run| && StatusAt(run, skip0, i) == Skipped|
  {
    hide StatusAt, Count;
    CountIsSize(run, skip0, |run|, Passed);
    CountIsSize(run, skip0, |run|, Failed);
    CountIsSize(run, skip0, |run|, Error);
    CountIsSize(run, skip0, |run|, Skipped);
  }

  /** The executing loop of the group runner. */
  method RunSelected(c: Cmocka, a: Allocator, states: array<TestState>, total: nat, ghost run: seq<UnitTest<Script>>)
    returns (totals: Totals, dangling: bool, ghost seen: seq<UnitTest<Log>>, ghost at: seq<seq<nat>>)
    requires Quiet(c) && ClientRuns.Clean(a) && |run| == total <= states.Length
    requires forall k :: 0 <= k < |run| ==> states[k] == TestState(run[k], NotStarted) && SoundTest(run[k])
    modifies c, c.heap, a, states
    ensures ClientRuns.Clean(a)
    ensures PlaysAll(a.header, run, seen, at, dangling)
    ensures |at| == |seen| + 1 && at[0] == old(a.blocks) && at[|seen|] == a.blocks
    ensures !dangling ==>
              && Quiet(c)
              && Counted(ShownAll(seen), old(c.skip), totals)
              && (forall k :: 0 <= k < |run| ==>
                    states[k] == TestState(run[k], StatusAt(ShownAll(seen), old(c.skip), k)))
              && old(c.heap.loose) <= c.heap.loose
              && ((forall t :: t in run ==> LosesNothing(t)) ==> c.heap.loose == old(c.heap.loose))
  {
    hide Quiet, SoundTest, StatusOf, PendingAfter, LosesNothing, ClientRuns.Clean, Plays, Count, PendingBefore, Shown;
    ghost var skip0, loose0 := c.skip, c.heap.loose;
    var i := 0;
    totals, dangling, seen, at := Totals(0, 0, 0, 0, 0), false, [], [a.blocks];
    NothingCounted(skip0);
    assert run[..0] == [];
    while i < total
      invariant 0 <= i <= total && ClientRuns.Clean(a) && Quiet(c) && !dangling
      invariant PlaysAll(a.header, run[..i], seen, at, false) && at[0] == old(a.blocks) && at[i] == a.blocks
      invariant Counted(ShownAll(seen), skip0, totals)
      invariant forall k :: 0 <= k < i ==> states[k] == TestState(run[k], StatusAt(ShownAll(seen), skip0, k))
      invariant forall k :: i <= k < |run| ==> states[k] == TestState(run[k], NotStarted) && SoundTest(run[k])
      invariant c.skip <==> PendingBefore(ShownAll(seen), skip0, i)
      invariant loose0 <= c.heap.loose
      invariant (forall t :: t in run ==> LosesNothing(t)) ==> c.heap.loose == loose0
    {
      var rc;
      ghost var next;
      rc, dangling, next := RunOneTests(c, a, states, i);
      PlaysOneMore(a.header, run, i, seen, at, next, a.blocks, dangling);
      if dangling {
        seen, at := seen + [next], at + [a.blocks];
        return;
      }
      CountNext(seen, next, skip0);
      OneOfFour(Shown(next), PendingBefore(ShownAll(seen), skip0, i));
      totals := totals.(executed := totals.executed + 1);
      if rc == 0 {
        match states[i].status
        case Passed => totals := totals.(passed := totals.passed + 1);
        case Skipped => totals := totals.(skipped := totals.skipped + 1);
        case Failed => totals := totals.(failed := totals.failed + 1);
        case _ => assert false;  // the internal-error branch
      } else {
        totals := totals.(errors := totals.errors + 1);
      }
      seen, at := seen + [next], at + [a.blocks];
      i := i + 1;
    }
    assert run[..|run|] == run;
  }

  lemma NothingCounted(skip0: bool)
    ensures Counted(ShownAll([]), skip0, Totals(0, 0, 0, 0, 0)) && PendingBefore(ShownAll([]), skip0, 0) == skip0
  {
  }

  /** A run of a group: its fixtures and its tests, up to one with a dangling checkpoint (cut), and the
      blocks after all of them. */
  datatype GroupLog = GroupLog(setup: Option<Log>, seen: seq<UnitTest<Log>>, at: seq<seq<nat>>, cut: bool,
                               teardown: Option<Log>, last: seq<nat>)

  /** The fixtures of the group are given the checkpoint that was taken at its start. */
  ghost predicate PlaysFixtures(header: nat, run: seq<UnitTest<Script>>, groupSetup: Option<Script>,
                                groupTeardown: Option<Script>, g: GroupLog, blocks: seq<nat>)
  {
    && RanIf(header, g.setup, AsSetup(groupSetup), blocks, LastOf(blocks))
    && |g.at| == |g.seen| + 1 && g.at[0] == After(g.setup, blocks)
    && (if SetupSucceeds(BodyIn(g.setup)) then PlaysAll(header, run, g.seen, g.at, g.cut) else g.seen == [] && !g.cut)
    && (if g.cut then g.teardown.None?
        else RanIf(header, g.teardown, AsTeardown(groupTeardown), g.at[|g.seen|], LastOf(blocks)))
    && g.last == After(g.teardown, g.at[|g.seen|])
  }

  /** The last check for leaks is against the same checkpoint. */
  ghost predicate PlaysGroup(header: nat, run: seq<UnitTest<Script>>, groupSetup: Option<Script>,
                             groupTeardown: Option<Script>, g: GroupLog, blocks: seq<nat>, dangling: bool)
  {
    && PlaysFixtures(header, run, groupSetup, groupTeardown, g, blocks)
    && dangling == (g.cut || Dangling(g.teardown) || !Holds(g.last, LastOf(blocks)))
  }

  /** The block of the checkpoint is still in the list. */
  predicate Holds(blocks: seq<nat>, cp: Option<nat>) {
    cp.Some? ==> cp.value in blocks
  }

  /** The end of the group, with the given blocks left: those allocated since its start are freed, and if
      there are any the process exits. */
  ghost predicate Finished(last: seq<nat>, cp: Option<nat>, after: seq<nat>, totals: Totals, outcome: Outcome) {
    && Holds(last, cp) && after == last[..Start(last, cp)]
    && outcome == if Since(last, cp) != [] then Exited else ReturnsCode(ToInt(totals.failed + totals.errors))
  }

  /** The functions of the group that run are sound. */
  ghost predicate SoundGroup(run: seq<UnitTest<Script>>, groupSetup: Option<Script>, groupTeardown: Option<Script>) {
    (forall t :: t in run ==> SoundTest(t)) && Sound(groupSetup) && Sound(groupTeardown)
  }

  /** None of them declares a value to be returned 0 times. */
  ghost predicate GroupLosesNothing(run: seq<UnitTest<Script>>, groupSetup: Option<Script>,
                                    groupTeardown: Option<Script>)
  {
    (forall t :: t in run ==> LosesNothing(t)) && Keeps(groupSetup) && Keeps(groupTeardown)
  }

  /** _cmocka_run_group_tests. memory: calloc found memory for the array of tests; reported: the failure
      of the group teardown, which is printed and changes nothing else; dangling: the block that a
      checkpoint refers to was freed before the check for leaks, and C gives the rest no meaning. */
  method RunGroupTests(c: Cmocka, a: Allocator, tests: seq<UnitTest<Script>>, testFilter: Option<string>,
                       skipFilter: Option<string>, groupSetup: Option<Script>, groupTeardown: Option<Script>,
                       memory: bool)
    returns (outcome: Outcome, totals: Totals, reported: bool, dangling: bool, ghost g: GroupLog)
    requires Quiet(c) && ClientRuns.Clean(a)
    requires SoundGroup(Selected(tests, testFilter, skipFilter), groupSetup, groupTeardown)
    modifies c, c.heap, a
    ensures ClientRuns.Clean(a)
    ensures !memory ==>
              && outcome == ReturnsCode(-1) && totals == Totals(0, 0, 0, 0, 0) && !reported && !dangling
              && Quiet(c) && a.blocks == old(a.blocks)
    ensures memory ==>
              PlaysGroup(a.header, Selected(tests, testFilter, skipFilter), groupSetup, groupTeardown, g,
                old(a.blocks), dangling)
    ensures memory && !dangling ==>
              && Quiet(c) && Finished(g.last, LastOf(old(a.blocks)), a.blocks, totals, outcome)
              && (if SetupSucceeds(BodyIn(g.setup)) then Counted(ShownAll(g.seen), old(c.skip), totals)
                  else totals == Totals(0, 0, 0, 1, 0))
              && (reported <==> ReturnOf(g.teardown).0 != 0)
              && (GroupLosesNothing(Selected(tests, testFilter, skipFilter), groupSetup, groupTeardown) ==>
                    c.heap.loose == old(c.heap.loose))
  {
    hide *;
    ghost var blocks := a.blocks;
    ClientRuns.IsDistinct(a);
    var cp := a.CheckPoint();
    outcome, totals, reported, dangling := ReturnsCode(-1), Totals(0, 0, 0, 0, 0), false, false;
    g := GroupLog(None, [], [blocks], false, None, blocks);
    if !memory {
      return;
    }
    var states, total := SelectTests(tests, testFilter, skipFilter);
    ghost var run := Selected(tests, testFilter, skipFilter);
    totals, reported, dangling, g := PlayGroup(c, a, states, total, run, groupSetup, groupTeardown, cp);
    GroupEnds(a.header, run, groupSetup, groupTeardown, g, blocks);
    if dangling {
      return;
    }
    dangling := !Holds(a.blocks, cp);
    if dangling {
      return;
    }
    HoldsIs(a.blocks, cp);
    var leaked := CheckBlocks(a, cp);
    outcome := if leaked then Exited else ReturnsCode(ToInt(totals.failed + totals.errors));
    FinishedIs(g.last, cp, a.blocks, totals, outcome);
  }

  lemma FinishedIs(last: seq<nat>, cp: Option<nat>, after: seq<nat>, totals: Totals, outcome: Outcome)
    requires (cp.Some? ==> cp.value in last) && after == last[..Start(last, cp)]
    requires outcome == if Since(last, cp) != [] then Exited else ReturnsCode(ToInt(totals.failed + totals.errors))
    ensures Finished(last, cp, after, totals, outcome)
  {
  }

  /** The fixtures and the tests of a group. */
  method PlayGroup(c: Cmocka, a: Allocator, states: array<TestState>, total: nat, ghost run: seq<UnitTest<Script>>,
                   groupSetup: Option<Script>, groupTeardown: Option<Script>, cp: Option<nat>)
    returns (totals: Totals, reported: bool, dangling: bool, ghost g: GroupLog)
    requires Quiet(c) && ClientRuns.Clean(a) && SoundGroup(run, groupSetup, groupTeardown)
    requires |run| == total <= states.Length && cp == LastOf(a.blocks)
    requires forall k :: 0 <= k < |run| ==> states[k] == TestState(run[k], NotStarted)
    modifies c, c.heap, a, states
    ensures ClientRuns.Clean(a) && a.blocks == g.last && dangling == (g.cut || Dangling(g.teardown))
    ensures PlaysFixtures(a.header, run, groupSetup, groupTeardown, g, old(a.blocks))
    ensures !dangling ==>
              && Quiet(c)
              && (if SetupSucceeds(BodyIn(g.setup)) then Counted(ShownAll(g.seen), old(c.skip), totals)
                  else totals == Totals(0, 0, 0, 1, 0))
              && (reported <==> ReturnOf(g.teardown).0 != 0)
              && (GroupLosesNothing(run, groupSetup, groupTeardown) ==> c.heap.loose == old(c.heap.loose))
  {
    hide *;
    ghost var blocks := a.blocks;
    totals, reported, dangling := Totals(0, 0, 0, 0, 0), false, false;
    PartsOfGroup(run, groupSetup, groupTeardown);
    var rc;
    ghost var setup, teardown, seen, at;
    rc, dangling, setup := RunPart(c, a, AsSetup(groupSetup), Some(cp), false);
    SetupRan(a.header, setup, AsSetup(groupSetup), blocks, cp);
    GroupSetupIs(a.header, setup, AsSetup(groupSetup), blocks, cp);
    seen, at := [], [a.blocks];
    if rc == 0 {
      totals, dangling, seen, at := RunSelected(c, a, states, total, run);
    } else {
      totals := totals.(errors := 1);
    }
    if dangling {
      g := GroupLog(setup, seen, at, true, None, a.blocks);
      NoLog(a.blocks);
      GroupPlayed(a.header, run, groupSetup, groupTeardown, g, blocks);
      return;
    }
    rc, dangling, teardown := RunPart(c, a, AsTeardown(groupTeardown), Some(cp), false);
    g := GroupLog(setup, seen, at, false, teardown, a.blocks);
    GroupPlayed(a.header, run, groupSetup, groupTeardown, g, blocks);
    reported := rc != 0;
  }

  lemma NoLog(b: seq<nat>)
    ensures After(None, b) == b && !Dangling(None)
  {
  }

  lemma HoldsIs(blocks: seq<nat>, cp: Option<nat>)
    ensures Holds(blocks, cp) <==> (cp.Some? ==> cp.value in blocks)
  {
  }

  lemma PartsOfGroup(run: seq<UnitTest<Script>>, groupSetup: Option<Script>, groupTeardown: Option<Script>)
    ensures SoundGroup(run, groupSetup, groupTeardown) ==>
              && (forall k :: 0 <= k < |run| ==> SoundTest(run[k]))
              && (AsSetup(groupSetup).Some? ==> Sound(Some(AsSetup(groupSetup).value.script)))
              && (AsTeardown(groupTeardown).Some? ==> Sound(Some(AsTeardown(groupTeardown).value.script)))
    ensures GroupLosesNothing(run, groupSetup, groupTeardown) ==>
              && (forall t :: t in run ==> LosesNothing(t))
              && (AsSetup(groupSetup).Some? ==> Keeps(Some(AsSetup(groupSetup).value.script)))
              && (AsTeardown(groupTeardown).Some? ==> Keeps(Some(AsTeardown(groupTeardown).value.script)))
    ensures AsSetup(groupSetup).Some? ==> AsSetup(groupSetup).value.Setup?
  {
    hide RunFreesStored, RunLosesRecord;
    assert forall k :: 0 <= k < |run| ==> run[k] in run;
  }

  lemma GroupSetupIs(header: nat, setup: Option<Log>, f: Option<Function>, blocks: seq<nat>, cp: Option<nat>)
    requires RanIf(header, setup, f, blocks, cp) && (f.Some? ==> f.value.Setup?)
    ensures SetupSucceeds(BodyIn(setup)) <==> ReturnOf(setup).0 == 0
    ensures ReturnOf(setup).0 == 0 ==> !ReturnOf(setup).1
  {
    SkipFails(PhaseIn(setup));
    hide RunPhase, Logged;
  }

  lemma GroupPlayed(header: nat, run: seq<UnitTest<Script>>, groupSetup: Option<Script>, groupTeardown: Option<Script>,
                    g: GroupLog, blocks: seq<nat>)
    requires RanIf(header, g.setup, AsSetup(groupSetup), blocks, LastOf(blocks))
    requires |g.at| == |g.seen| + 1 && g.at[0] == After(g.setup, blocks)
    requires if SetupSucceeds(BodyIn(g.setup)) then PlaysAll(header, run, g.seen, g.at, g.cut)
             else g.seen == [] && !g.cut
    requires if g.cut then g.teardown.None?
             else RanIf(header, g.teardown, AsTeardown(groupTeardown), g.at[|g.seen|], LastOf(blocks))
    requires g.last == After(g.teardown, g.at[|g.seen|])
    ensures PlaysFixtures(header, run, groupSetup, groupTeardown, g, blocks)
  {
    hide PlaysAll, SetupSucceeds, RanIf, After;
  }

  lemma GroupEnds(header: nat, run: seq<UnitTest<Script>>, groupSetup: Option<Script>, groupTeardown: Option<Script>,
                  g: GroupLog, blocks: seq<nat>)
    requires PlaysFixtures(header, run, groupSetup, groupTeardown, g, blocks)
    ensures PlaysGroup(header, run, groupSetup, groupTeardown, g, blocks,
              g.cut || Dangling(g.teardown) || !Holds(g.last, LastOf(blocks)))
  {
    hide PlaysFixtures;
  }

  /** What the return value of a group says: 0 exactly if the group setup succeeded and every test that
      ran passed or was skipped. With 2^32 tests and more, the conversion to int gets in the way, and 0
      can also mean that a multiple of 2^32 of them failed. */
  lemma ZeroMeansSuccess(run: seq<UnitTest<Body>>, groupSetup: Option<Body>, skip0: bool, totals: Totals)
    requires if SetupSucceeds(groupSetup) then Counted(run, skip0, totals) else totals == Totals(0, 0, 0, 1, 0)
    ensures ToInt(totals.failed + totals.errors) == 0 <==> (totals.failed + totals.errors) % WORD == 0
    ensures |run| < WORD ==>
              (ToInt(totals.failed + totals.errors) == 0 <==>
               SetupSucceeds(groupSetup) &&
               forall i :: 0 <= i < |run| ==> StatusAt(run, skip0, i) in {Passed, Skipped})
  {
    hide RunPhase, StatusOf, PendingAfter;
    if SetupSucceeds(groupSetup) {
      CountsAddUp(run, skip0, |run|);
      NoneCounted(run, skip0, |run|, Failed);
      NoneCounted(run, skip0, |run|, Error);
      forall i | 0 <= i < |run| ensures StatusAt(run, skip0, i) in {Passed, Failed, Skipped, Error} {
        OneOfFour(run[i], PendingBefore(run, skip0, i));
      }
    }
  }

  /** The same, for what a group does: it returns 0 exactly if nothing is left that it allocated, its setup
      succeeded, and every test that ran passed or was skipped. */
  lemma GroupVerdict(g: GroupLog, blocks: seq<nat>, skip0: bool, after: seq<nat>, totals: Totals, outcome: Outcome)
    requires Finished(g.last, LastOf(blocks), after, totals, outcome) && |g.seen| < WORD
    requires if SetupSucceeds(BodyIn(g.setup)) then Counted(ShownAll(g.seen), skip0, totals)
             else totals == Totals(0, 0, 0, 1, 0)
    ensures outcome == ReturnsCode(0) <==>
            && Since(g.last, LastOf(blocks)) == []
            && SetupSucceeds(BodyIn(g.setup))
            && forall i :: 0 <= i < |g.seen| ==> StatusAt(ShownAll(g.seen), skip0, i) in {Passed, Skipped}
    ensures outcome == Exited <==> Since(g.last, LastOf(blocks)) != []
  {
    hide SetupSucceeds, Counted, StatusAt, ShownAll, Since, ToInt;
    ZeroMeansSuccess(ShownAll(g.seen), BodyIn(g.setup), skip0, totals);
  }

  // ---- Deviations and consequences

  /** The run of a function freed neither the block of the checkpoint before the test, nor its own. */
  ghost predicate KeepsCheckpoints(header: nat, log: Option<Log>, cp0: Option<nat>) {
    log.Some? ==>
      var events := ClientRuns.RunEvents(header, log.value.trace);
      && (cp0.Some? ==> Removed(cp0.value) !in events)
      && (log.value.cp.Some? ==> Removed(log.value.cp.value) !in events)
  }

  /** What the three checkpoints of a test are for: if its teardown runs to its end, then nothing is left
      of what its setup, the test itself or its teardown allocated, whether or not they failed. */
  lemma NothingLeft(header: nat, t: UnitTest<Script>, seen: UnitTest<Log>, blocks: seq<nat>, after: seq<nat>)
    requires Plays(header, t, seen, blocks, after, false) && t.setup.Some? && t.teardown.Some?
    requires !SetupFails(Shown(seen))
    requires seen.teardown.Some? ==> EndOf(seen.teardown.value.f, seen.teardown.value.trace) == Returns
    requires forall log :: log in [seen.setup, seen.test, seen.teardown] ==>
               KeepsCheckpoints(header, log, LastOf(blocks))
    ensures forall h :: h in after ==> h in blocks
  {
    var cp0 := LastOf(blocks);
    assert KeepsCheckpoints(header, seen.setup, cp0) && KeepsCheckpoints(header, seen.test, cp0) &&
           KeepsCheckpoints(header, seen.teardown, cp0);
    assert blocks + [] == blocks && EndsAt(blocks, cp0);
    hide Logged, EndOf, RunPhase, ClientRuns.RunEvents, EndsAt, LastOf;
    var p, q := PhaseSplit(header, seen.setup.value, blocks, [], cp0);
    if seen.test.Some? {
      p, q := PhaseSplit(header, seen.test.value, p, q, cp0);
    }
    p, q := PhaseSplit(header, seen.teardown.value, p, q, cp0);
  }

  /** After a group teardown that ran to its end, no block is left that the group allocated: the process
      does not exit, whatever the tests did. */
  lemma TeardownClears(header: nat, run: seq<UnitTest<Script>>, groupSetup: Option<Script>,
                       groupTeardown: Option<Script>, g: GroupLog, blocks: seq<nat>, after: seq<nat>, totals: Totals,
                       outcome: Outcome)
    requires PlaysGroup(header, run, groupSetup, groupTeardown, g, blocks, false)
    requires Finished(g.last, LastOf(blocks), after, totals, outcome)
    requires g.teardown.Some? && EndOf(g.teardown.value.f, g.teardown.value.trace) == Returns
    ensures after == g.last && outcome == ReturnsCode(ToInt(totals.failed + totals.errors))
  {
    hide *;
    var log := g.teardown.value;
    TeardownIs(header, run, groupSetup, groupTeardown, g, blocks);
    LogIs(header, log);
    NothingFurther(log, BlocksThen(header, log.before, log.trace), totals, after, outcome);
  }

  lemma TeardownIs(header: nat, run: seq<UnitTest<Script>>, groupSetup: Option<Script>, groupTeardown: Option<Script>,
                   g: GroupLog, blocks: seq<nat>)
    requires PlaysGroup(header, run, groupSetup, groupTeardown, g, blocks, false) && g.teardown.Some?
    ensures var log := g.teardown.value;
            && Logged(header, log) && log.f.Teardown? && log.cp == LastOf(blocks) && log.after == g.last
            && !log.dangling
  {
    hide PlaysAll, Logged, LastOf, SetupSucceeds;
  }

  lemma NothingFurther(log: Log, now: seq<nat>, totals: Totals, after: seq<nat>, outcome: Outcome)
    requires LeakCheck(log.f, Returns, now, log.cp, log.after, false, log.leaked) && log.f.Teardown?
    requires Finished(log.after, log.cp, after, totals, outcome)
    ensures after == log.after && outcome == ReturnsCode(ToInt(totals.failed + totals.errors))
  {
    hide ToInt;
    var k := Start(now, log.cp);
    assert log.cp.Some? ==> log.after[k - 1] == log.cp.value;
    assert Start(log.after, log.cp) == k == |log.after|;
  }

  /** A group teardown that fails is reported, but the group still returns 0 if its tests did well. */
  method FailingTeardownReturnsZero(c: Cmocka, a: Allocator) returns (outcome: Outcome, reported: bool)
    requires Quiet(c) && ClientRuns.Clean(a)
    modifies c, c.heap, a
    ensures reported && outcome == ReturnsCode(0)
  {
    hide *;
    var failing := Script([Api(Op.Fail)], 0);
    ghost var blocks, skip0 := a.blocks, c.skip;
    ClientRuns.IsDistinct(a);
    FailingScript(failing);
    var totals, dangling;
    ghost var g;
    NothingSelected();
    outcome, totals, reported, dangling, g := RunGroupTests(c, a, [], None, None, None, Some(failing), true);
    FailingGroup(a.header, failing, g, blocks, dangling, skip0);
  }

  lemma NothingSelected()
    ensures Selected([], None, None) == []
  {
  }

  lemma FailingScript(f: Script)
    requires f == Script([Api(Op.Fail)], 0)
    ensures Sound(Some(f)) && SoundGroup([], None, Some(f))
  {
    assert f.calls[1..] == [];
    assert ApiCalls(f.calls) == [Op.Fail];
    FailIsSound(Nothing);
  }

  lemma FailingGroup(header: nat, f: Script, g: GroupLog, blocks: seq<nat>, dangling: bool, skip0: bool)
    requires f == Script([Api(Op.Fail)], 0) && Distinct(blocks)
    requires PlaysGroup(header, [], None, Some(f), g, blocks, dangling)
    ensures !dangling && ReturnOf(g.teardown).0 != 0 && SetupSucceeds(BodyIn(g.setup))
    ensures forall after, totals, outcome :: Finished(g.last, LastOf(blocks), after, totals, outcome) ==>
              outcome == ReturnsCode(ToInt(totals.failed + totals.errors))
    ensures forall totals :: Counted(ShownAll(g.seen), skip0, totals) ==> totals == Totals(0, 0, 0, 0, 0)
    ensures ToInt(0) == 0
  {
    hide *;
    FailingShape(header, f, g, blocks, dangling);
    FailingLog(header, f, g.teardown.value);
    FailingEnd(g, blocks, dangling);
    NothingFinished(blocks);
    NothingCounted(skip0);
    CountedOnce(skip0);
  }

  lemma FailingShape(header: nat, f: Script, g: GroupLog, blocks: seq<nat>, dangling: bool)
    requires PlaysGroup(header, [], None, Some(f), g, blocks, dangling)
    ensures g.seen == [] && !g.cut && g.setup == None && g.teardown.Some? && SetupSucceeds(BodyIn(g.setup))
    ensures Logged(header, g.teardown.value) && g.teardown.value.f == Function.Teardown(f)
    ensures g.teardown.value.before == blocks && g.last == g.teardown.value.after
    ensures dangling == (g.teardown.value.dangling || !Holds(g.last, LastOf(blocks)))
  {
    hide Plays, Logged, RunPhase;
  }

  lemma FailingEnd(g: GroupLog, blocks: seq<nat>, dangling: bool)
    requires g.teardown.Some? && g.last == blocks && !g.teardown.value.dangling
    requires dangling == (g.teardown.value.dangling || !Holds(g.last, LastOf(blocks)))
    requires RunPhase(PhaseOfLog(g.teardown.value)).0 == -1
    ensures !dangling && ReturnOf(g.teardown).0 != 0 && ToInt(0) == 0
  {
    hide RunPhase;
  }

  lemma NothingFinished(blocks: seq<nat>)
    requires Distinct(blocks)
    ensures forall after, totals, outcome :: Finished(blocks, LastOf(blocks), after, totals, outcome) ==>
              outcome == ReturnsCode(ToInt(totals.failed + totals.errors))
  {
    NothingSince(blocks);
    hide Since, Start, LastOf, ToInt;
  }

  lemma CountedOnce(skip0: bool)
    ensures forall totals :: Counted(ShownAll([]), skip0, totals) ==> totals == Totals(0, 0, 0, 0, 0)
  {
  }

  lemma FailingLog(header: nat, f: Script, log: Log)
    requires f == Script([Api(Op.Fail)], 0) && Logged(header, log) && log.f == Function.Teardown(f)
    ensures log.after == log.before && !log.dangling && RunPhase(PhaseOfLog(log)).0 == -1
  {
    hide *;
    FailingCalls(f, log.trace);
    LogIs(header, log);
    FailingBlocks(header, log);
    PhaseIs(log);
    SameVerdict(log.f, [Op.Fail], log.leaked, Nothing, End.Fails);
    VerdictIs(PhaseOf(log.f, [], log.leaked), Nothing, End.Fails);
  }

  lemma FailingCalls(f: Script, trace: seq<ClientRuns.Step>)
    requires f == Script([Api(Op.Fail)], 0)
    ensures Seen(f.calls, trace) == [Op.Fail] && HeapCalls(f.calls) == []
    ensures WellFormedState(Nothing) && RunOps(Nothing, [Op.Fail]) == (Nothing, End.Fails)
  {
    assert f.calls[1..] == [];
  }

  lemma FailingBlocks(header: nat, log: Log)
    requires HeapCalls(log.f.script.calls) == [] && Reaches(log.f.script.calls, log.trace, EndOf(log.f, log.trace))
    requires Seen(log.f.script.calls, log.trace) == [Op.Fail] && RunOps(Nothing, [Op.Fail]).1 == End.Fails
    requires LeakCheck(log.f, EndOf(log.f, log.trace), BlocksThen(header, log.before, log.trace), log.cp, log.after,
               log.dangling, log.leaked)
    ensures log.after == log.before && !log.dangling
  {
    hide RunOps, Seen, HeapCalls, Start, Since;
    assert log.trace == [];
  }
}
