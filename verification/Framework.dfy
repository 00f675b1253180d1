// The framework in C memory: the three global expectation lists and the flags, the API functions
// that work on them, and one phase from initialize_testing to teardown_testing. Each function is
// proved against what Phases says it does; that nothing is freed twice, lost or used after it was
// freed is proved along the way.
module Framework {
  import opened Wrappers
  import opened Expectations
  import opened CallOrder
  import opened Sequences
  import opened SymbolTree
  import opened Phases

  /** The addresses of the global list heads. */
  const RESULTS: Ptr := 0
  const PARAMS: Ptr := 1
  const ORDERING: Ptr := 2

  const HEADS := map[RESULTS := "results", PARAMS := "params", ORDERING := "ordering"]

  ghost predicate OnlyCalls(entries: seq<Entry<Datum>>) {
    forall i :: 0 <= i < |entries| ==> entries[i].value.Ordered?
  }

  ghost function CallsOf(entries: seq<Entry<Datum>>): (r: seq<Expected>)
    requires OnlyCalls(entries)
    ensures |r| == |entries|
  {
    seq(|entries|, i requires 0 <= i < |entries| => Expected(entries[i].value.callee, entries[i].count))
  }

  ghost predicate Heads(at: Labels) {
    && RESULTS in at.path && at.path[RESULTS] == [HEADS[RESULTS]]
    && PARAMS in at.path && at.path[PARAMS] == [HEADS[PARAMS]]
    && ORDERING in at.path && at.path[ORDERING] == [HEADS[ORDERING]]
  }

  /** Each of the three lists is a tree of its depth, and well formed. */
  ghost predicate Shape(m: Memory, at: Labels) {
    && Heads(at)
    && Tree(m, at, RESULTS, 1) && WellFormed(View(m, at, RESULTS, 1), 1)
    && Tree(m, at, PARAMS, 2) && WellFormed(View(m, at, PARAMS, 2), 2)
    && Tree(m, at, ORDERING, 0) && OnlyCalls(View(m, at, ORDERING, 0).entries)
  }

  ghost function StateOf(m: Memory, at: Labels): (st: State)
    requires Shape(m, at)
    ensures WellFormedState(st)
  {
    State(View(m, at, RESULTS, 1), View(m, at, PARAMS, 2), CallsOf(View(m, at, ORDERING, 0).entries))
  }

  // ---- What a change of one list does to the three

  /** A change below one head leaves the trees at the other heads alone. */
  lemma OtherTree(m: Memory, at: Labels, m': Memory, at': Labels, hd: Ptr, other: Ptr, depth: nat)
    requires Tree(m, at, other, depth) && hd in at.path && other in at.path
    requires |at.path[hd]| == 1 && |at.path[other]| == 1 && at.path[hd] != at.path[other]
    requires SameOutside(m, at, m', at', hd)
    ensures Tree(m', at', other, depth) && View(m', at', other, depth) == View(m, at, other, depth)
    ensures other in at'.path && at'.path[other] == at.path[other]
  {
    forall p | p in m.lists && Under(at, other, p) ensures SameList(m, at, m', at', p) {
      assert at.path[p][0] == at.path[other][0] && at.path[other] == [at.path[other][0]] &&
             at.path[hd] == [at.path[hd][0]];
    }
    assert Under(at, other, other) by {
    }
    ViewSame(m, at, m', at', other, depth);
  }

  lemma HeadKept(m: Memory, at: Labels, m': Memory, at': Labels, hd: Ptr)
    requires hd in at.path && SameOutside(m, at, m', at', hd)
    ensures hd in at'.path && at'.path[hd] == at.path[hd]
  {
  }

  lemma ResultsChanged(m: Memory, at: Labels, m': Memory, at': Labels)
    requires Shape(m, at) && SameOutside(m, at, m', at', RESULTS)
    requires Tree(m', at', RESULTS, 1) && WellFormed(View(m', at', RESULTS, 1), 1)
    ensures Shape(m', at') && StateOf(m', at') == StateOf(m, at).(results := View(m', at', RESULTS, 1))
  {
    hide Tree, Twig, View, SameOutside, WellFormed, OnlyCalls;
    HeadKept(m, at, m', at', RESULTS);
    OtherTree(m, at, m', at', RESULTS, PARAMS, 2);
    OtherTree(m, at, m', at', RESULTS, ORDERING, 0);
  }

  lemma ParamsChanged(m: Memory, at: Labels, m': Memory, at': Labels)
    requires Shape(m, at) && SameOutside(m, at, m', at', PARAMS)
    requires Tree(m', at', PARAMS, 2) && WellFormed(View(m', at', PARAMS, 2), 2)
    ensures Shape(m', at') && StateOf(m', at') == StateOf(m, at).(params := View(m', at', PARAMS, 2))
  {
    hide Tree, Twig, View, SameOutside, WellFormed, OnlyCalls;
    HeadKept(m, at, m', at', PARAMS);
    OtherTree(m, at, m', at', PARAMS, RESULTS, 1);
    OtherTree(m, at, m', at', PARAMS, ORDERING, 0);
  }

  lemma OrderingChanged(m: Memory, at: Labels, m': Memory, at': Labels)
    requires Shape(m, at) && SameOutside(m, at, m', at', ORDERING)
    requires Tree(m', at', ORDERING, 0) && OnlyCalls(View(m', at', ORDERING, 0).entries)
    ensures Shape(m', at')
    ensures StateOf(m', at') == StateOf(m, at).(calls := CallsOf(View(m', at', ORDERING, 0).entries))
  {
    hide Tree, Twig, View, SameOutside, WellFormed, OnlyCalls;
    HeadKept(m, at, m', at', ORDERING);
    OtherTree(m, at, m', at', ORDERING, RESULTS, 1);
    OtherTree(m, at, m', at', ORDERING, PARAMS, 2);
  }

  /** Records that no list stores may come and go. */
  lemma RecordsElsewhere(m: Memory, at: Labels, m': Memory)
    requires Shape(m, at) && m'.lists == m.lists && m'.symbols == m.symbols
    requires forall h, i {:trigger m.lists[h][i]} :: h in m.lists && 0 <= i < |m.lists[h]| ==>
               SameRecord(m, at, m', at, m.lists[h][i].value)
    ensures Shape(m', at) && StateOf(m', at) == StateOf(m, at)
  {
    assert RESULTS in m.lists && PARAMS in m.lists && ORDERING in m.lists;
    forall p | p in m.lists && p in at.path ensures SameList(m, at, m', at, p) {
    }
    hide Tree, Twig, View, WellFormed, OnlyCalls, SameList;
    ViewSame(m, at, m', at, RESULTS, 1);
    ViewSame(m, at, m', at, PARAMS, 2);
    ViewSame(m, at, m', at, ORDERING, 0);
  }

  lemma RecordAdded(m: Memory, at: Labels, roots: set<Ptr>, loose: set<Ptr>, p: Ptr, d: Datum)
    requires Shape(m, at) && Owned(m, at, roots, loose) && at.freed == {} && p !in m.records && p !in m.symbols
    ensures var m' := m.(records := m.records[p := d]); Shape(m', at) && StateOf(m', at) == StateOf(m, at)
  {
    forall h, i | h in m.lists && 0 <= i < |m.lists[h]|
      ensures SameRecord(m, at, m.(records := m.records[p := d]), at, m.lists[h][i].value)
    {
      assert Stored(m, at, loose, h, m.lists[h][i].value);
    }
    hide Shape, Owned;
    RecordsElsewhere(m, at, m.(records := m.records[p := d]));
  }

  lemma LooseRecordFreed(m: Memory, at: Labels, roots: set<Ptr>, loose: set<Ptr>, p: Ptr)
    requires Shape(m, at) && Owned(m, at, roots, loose) && p in loose
    ensures var m' := m.(records := m.records - {p}); Shape(m', at) && StateOf(m', at) == StateOf(m, at)
  {
    hide Shape, Owned;
    LooseFreed(m, at, roots, loose, p, m.(records := m.records - {p}));
    RecordsElsewhere(m, at, m.(records := m.records - {p}));
  }

  lemma LooseRecordWritten(m: Memory, at: Labels, roots: set<Ptr>, loose: set<Ptr>, p: Ptr, d: Datum)
    requires Shape(m, at) && Owned(m, at, roots, loose) && p in loose
    ensures var m' := m.(records := m.records[p := d]); Shape(m', at) && StateOf(m', at) == StateOf(m, at)
  {
    OwnedStored(m, at, roots, loose);
    hide Shape, Owned;
    RecordsElsewhere(m, at, m.(records := m.records[p := d]));
  }

  /** Freeing a record that a list stores keeps the shape of the tree; only its content is lost. */
  lemma {:induction false} ShapeAfterLoss(m: Memory, at: Labels, p: Ptr, m': Memory, at': Labels, hd: Ptr, depth: nat)
    requires Tree(m, at, hd, depth) && WellFormed(View(m, at, hd, depth), depth)
    requires m' == m.(records := m.records - {p}) && at' == at.(freed := at.freed + {p})
    ensures Tree(m', at', hd, depth) && WellFormed(View(m', at', hd, depth), depth)
    decreases depth
  {
    if depth > 0 {
      forall i | 0 <= i < |m.lists[hd]|
        ensures Twig(m', at', hd, m.lists[hd][i], depth)
        ensures var sub := View(m', at', m.lists[hd][i].value, depth - 1); WellFormed(sub, depth - 1) && Size(sub) > 0
      {
        KidBelow(m, at, hd, i, depth);
        ShapeAfterLoss(m, at, p, m', at', m.lists[hd][i].value, depth - 1);
      }
      var kids, kids' := View(m, at, hd, depth).kids, View(m', at', hd, depth).kids;
      forall i | 0 <= i < |kids| ensures kids'[i].name == kids[i].name {
        KidBelow(m, at, hd, i, depth);
        KidBelow(m', at', hd, i, depth);
      }
      SameNames(kids, kids');
    }
  }

  lemma SameNames<V>(kids: seq<Kid<V>>, kids': seq<Kid<V>>)
    requires DistinctNames(kids) && |kids'| == |kids| && forall i :: 0 <= i < |kids| ==> kids'[i].name == kids[i].name
    ensures DistinctNames(kids')
  {
    forall i | 0 <= i < |kids| ensures Find(kids', kids'[i].name) == i {
      assert Find(kids, kids[i].name) == i;
      FindIs(kids', kids'[i].name, i);
    }
  }

  lemma LossKeepsShape(m: Memory, at: Labels, p: Ptr, m': Memory, at': Labels)
    requires Shape(m, at) && m' == m.(records := m.records - {p}) && at' == at.(freed := at.freed + {p})
    ensures Shape(m', at')
  {
    assert Tree(m', at', ORDERING, 0) && OnlyCalls(View(m', at', ORDERING, 0).entries) by {
      assert forall i :: 0 <= i < |m.lists[ORDERING]| ==>
        View(m, at, ORDERING, 0).entries[i].value == RecordAt(m, m.lists[ORDERING][i].value);
    }
    hide Tree, Twig, View, WellFormed, OnlyCalls;
    ShapeAfterLoss(m, at, p, m', at', RESULTS, 1);
    ShapeAfterLoss(m, at, p, m', at', PARAMS, 2);
  }

  lemma {:induction false} InTreeLists(m: Memory, m': Memory, hd: Ptr, depth: nat, v: Ptr)
    requires m'.lists == m.lists && InTree(m, hd, depth, v)
    ensures InTree(m', hd, depth, v)
    decreases depth
  {
    if depth > 0 {
      var i :| 0 <= i < |m.lists[hd]| && InTree(m, m.lists[hd][i].value, depth - 1, v);
      InTreeLists(m, m', m.lists[hd][i].value, depth - 1, v);
    }
  }

  // ---- The two ways in which a phase can break the rules of ownership

  /** A mock whose stored type tag is not the wanted one, and whose value stays in its queue: the
      record is freed there, and again at the end of the phase. */
  ghost predicate FreesStored(st: State, op: Op)
    requires WellFormedState(st)
  {
    op.Mock? &&
    var g := Get(st.results, [op.callee]);
    g.value.Some? && g.rc != 0 && g.rc != 1 && !TagMatches(g.value.value, op.wanted)
  }

  /** A value declared to be returned 0 times: the record is allocated, then the call fails. */
  predicate LosesRecord(op: Op) {
    op.WillReturn? && op.count == 0
  }

  ghost predicate RunFreesStored(st: State, ops: seq<Op>)
    requires WellFormedState(st)
    decreases |ops|
  {
    && ops != []
    && (FreesStored(st, ops[0]) || (Step(st, ops[0]).1 == Returns && RunFreesStored(Step(st, ops[0]).0, ops[1..])))
  }

  ghost predicate RunLosesRecord(st: State, ops: seq<Op>)
    requires WellFormedState(st)
    decreases |ops|
  {
    && ops != []
    && (LosesRecord(ops[0]) || (Step(st, ops[0]).1 == Returns && RunLosesRecord(Step(st, ops[0]).0, ops[1..])))
  }

  /** The first happens: a value declared for two calls, asked for with another type. */
  lemma FreesStoredHappens()
    ensures RunFreesStored(Nothing, [Op.WillReturn("f", Some("int"), 0, 2), Op.Mock("f", Some("ptr"))])
  {
    var ops := [Op.WillReturn("f", Some("int"), 0, 2), Op.Mock("f", Some("ptr"))];
    var e := Entry(Datum.Returned(Some("int"), 0), 2);
    AddShape(Symbols([]), ["f"], e);
    var st := Step(Nothing, ops[0]).0;
    AddMeaning(Symbols([]), ["f"], e, ["f"]);
    LookupEmpty<Datum>(["f"]);
    GetShape(st.results, ["f"]);
    assert ops[1..][0] == ops[1];
    assert FreesStored(st, ops[1]);
  }

  /** The second happens: a value declared for no call at all. */
  lemma LosesRecordHappens()
    ensures RunLosesRecord(Nothing, [Op.WillReturn("f", None, 0, 0)])
  {
  }

  /** What a call of mock() returned, with the name of its function. */
  function Results(op: Op, result: Option<Datum>): seq<(seq<string>, Datum)> {
    if op.Mock? && result.Some? then [([op.callee], result.value)] else []
  }

  /** What a call does: how it ends, what a mock returned, the lists after it (if it freed nothing that
      is still stored), and the record it lost. */
  ghost predicate AfterCall(st: State, op: Op, end: End, result: Option<Datum>, st': State, sound: bool,
                            orphans: set<Ptr>)
    requires WellFormedState(st)
  {
    && end == Step(st, op).1 && (end == Returns ==> Results(op, result) == HandedBy(st, op))
    && (sound <==> !FreesStored(st, op)) && (sound ==> st' == Step(st, op).0)
    && |orphans| == if LosesRecord(op) then 1 else 0
  }

  /** What the calls of a run do. A run that frees something that is still stored ends there. */
  ghost predicate AfterRun(st: State, ops: seq<Op>, end: End, values: seq<(seq<string>, Datum)>, st': State,
                           sound: bool, orphans: set<Ptr>)
    requires WellFormedState(st)
  {
    && end == RunOps(st, ops).1 && values == Handed(st, ops)
    && (sound <==> !RunFreesStored(st, ops)) && (if sound then st' == RunOps(st, ops).0 else end == Fails)
    && |orphans| == if RunLosesRecord(st, ops) then 1 else 0
  }

  class Cmocka {
    const heap: Heap
    var running: bool  // global_running_test
    var stop: bool     // global_stop_test
    var skip: bool     // global_skip_test

    ghost predicate Valid()
      reads heap
    {
      && heap.Valid() && heap.roots == HEADS.Keys
      && Shape(heap.mem, heap.at)
      && heap.loose <= heap.mem.records.Keys
    }

    ghost function State(): (st: State)
      requires Valid()
      reads heap
      ensures WellFormedState(st)
    {
      StateOf(heap.mem, heap.at)
    }

    constructor ()
      ensures Valid() && fresh(heap) && !running && !stop && !skip
      ensures State() == Nothing && heap.at.freed == {} && !heap.fault && heap.loose == {}
      ensures heap.mem.symbols == map[] && heap.mem.records == map[] && heap.mem.nodes == {}
    {
      hide Owned, Threaded, Shape, StateOf;
      heap := new Heap(HEADS);
      running, stop, skip := false, false, false;
      new;
      NothingYet(heap.mem, heap.at);
    }

    /** _will_return. */
    method WillReturn(callee: string, tag: Option<string>, value: int, count: int) returns (end: End,
                      ghost lost: set<Ptr>)
      requires Valid() && heap.at.freed == {}
      modifies heap
      ensures Valid() && heap.at.freed == {} && heap.fault == old(heap.fault)
      ensures (State(), end) == Step(old(State()), Op.WillReturn(callee, tag, value, count))
      ensures heap.loose == old(heap.loose) + lost && lost !! old(heap.loose) && |lost| == if count == 0 then 1 else 0
    {
      hide Owned, Threaded, SameOutside, SameList, Tree, Twig, View;
      hide KidView, Under, WellFormed, OnlyCalls, Add, Get, InTree;
      ghost var m, a := heap.mem, heap.at;
      var record := heap.NewRecord(Datum.Returned(tag, value));
      RecordAdded(m, a, heap.roots, old(heap.loose), record, Datum.Returned(tag, value));
      if count == 0 {
        return Fails, {record};
      }
      ghost var m1, a1 := heap.mem, heap.at;
      AddShape(State().results, [callee], Entry(Datum.Returned(tag, value), count));
      heap.AddSymbolValue(RESULTS, [callee], record, count);
      ResultsChanged(m1, a1, heap.mem, heap.at);
      end, lost := Returns, {};
    }

    /** _mock, which returns what the front record of the queue holds. A record freed although a list
        still stores it is lost. */
    method Mock(callee: string, wanted: Option<string>) returns (end: End, result: Option<Datum>, ghost lost: Ptr)
      requires Valid() && heap.at.freed == {}
      modifies heap
      ensures Valid() && heap.fault == old(heap.fault) && heap.loose == old(heap.loose)
      ensures end == Step(old(State()), Op.Mock(callee, wanted)).1
      ensures result == if end == Returns then Get(old(State()).results, [callee]).value else None
      ensures heap.at.freed == {} <==> !FreesStored(old(State()), Op.Mock(callee, wanted))
      ensures heap.at.freed == {} ==> State() == Step(old(State()), Op.Mock(callee, wanted)).0
      ensures heap.at.freed != {} ==> InTree(heap.mem, RESULTS, 1, lost) && lost !in heap.mem.records
    {
      hide Owned, Threaded, SameOutside, SameList, Tree, Twig, View;
      hide KidView, Under, WellFormed, OnlyCalls, Add, Get, InTree;
      ghost var m, a := heap.mem, heap.at;
      GetShape(State().results, [callee]);
      var rc, output := heap.GetSymbolValue(RESULTS, [callee]);
      lost := output;
      ResultsChanged(m, a, heap.mem, heap.at);
      if rc == 0 {
        return Fails, None, lost;
      }
      heap.Concrete();
      var d := heap.records[output];
      ghost var m1, a1 := heap.mem, heap.at;
      if !TagMatches(d, wanted) {
        heap.FreeRecord(output);
        if rc == 1 {
          LooseRecordFreed(m1, a1, heap.roots, old(heap.loose) + {output}, output);
        } else {
          LossKeepsShape(m1, a1, output, heap.mem, heap.at);
          InTreeLists(m1, heap.mem, RESULTS, 1, output);
        }
        return Fails, None, lost;
      }
      if rc == 1 {
        heap.FreeRecord(output);
        LooseRecordFreed(m1, a1, heap.roots, old(heap.loose) + {output}, output);
      }
      end, result := Returns, Some(d);
    }

    /** _expect_check; a count of 0 is not rejected. The caller may hand over an event of its own, which
        it need not free then. */
    method ExpectCheck(callee: string, param: string, accepts: int -> bool, event: Option<Ptr>, count: int)
      requires Valid() && heap.at.freed == {}
      requires event.Some? ==> event.value in heap.loose
      modifies heap
      ensures Valid() && heap.at.freed == {} && heap.fault == old(heap.fault)
      ensures heap.loose == old(heap.loose) - if event.Some? then {event.value} else {}
      ensures (State(), Returns) == Step(old(State()), Op.ExpectCheck(callee, param, accepts, count))
    {
      hide Owned, Threaded, SameOutside, SameList, Tree, Twig, View;
      hide KidView, Under, WellFormed, OnlyCalls, Add, Get, InTree;
      ghost var m, a := heap.mem, heap.at;
      var check;
      if event.Some? {
        check := event.value;
        heap.WriteRecord(check, Checked(accepts));
        LooseRecordWritten(m, a, heap.roots, old(heap.loose), check, Checked(accepts));
      } else {
        check := heap.NewRecord(Checked(accepts));
        RecordAdded(m, a, heap.roots, old(heap.loose), check, Checked(accepts));
      }
      ghost var m1, a1 := heap.mem, heap.at;
      AddShape(State().params, [callee, param], Entry(Checked(accepts), count));
      heap.AddSymbolValue(PARAMS, [callee, param], check, count);
      ParamsChanged(m1, a1, heap.mem, heap.at);
    }

    /** _check_expected. */
    method CheckExpected(callee: string, param: string, actual: int) returns (end: End)
      requires Valid() && heap.at.freed == {}
      modifies heap
      ensures Valid() && heap.at.freed == {} && heap.fault == old(heap.fault) && heap.loose == old(heap.loose)
      ensures (State(), end) == Step(old(State()), Op.CheckExpected(callee, param, actual))
    {
      hide Owned, Threaded, SameOutside, SameList, Tree, Twig, View;
      hide KidView, Under, WellFormed, OnlyCalls, Add, Get, InTree;
      ghost var m, a := heap.mem, heap.at;
      GetShape(State().params, [callee, param]);
      var rc, output := heap.GetSymbolValue(PARAMS, [callee, param]);
      ParamsChanged(m, a, heap.mem, heap.at);
      if rc == 0 {
        return Fails;
      }
      heap.Concrete();
      var d := heap.records[output];
      var succeeded := Accepted(d, actual);
      ghost var m1, a1 := heap.mem, heap.at;
      if rc == 1 {
        heap.FreeRecord(output);
        LooseRecordFreed(m1, a1, heap.roots, old(heap.loose) + {output}, output);
      }
      end := if succeeded then Returns else Fails;
    }

    /** The part of _expect_function_call behind its assertions. */
    method DeclareCall(callee: string, count: int)
      requires Valid() && heap.at.freed == {}
      modifies heap
      ensures Valid() && heap.at.freed == {} && heap.fault == old(heap.fault) && heap.loose == old(heap.loose)
      ensures State() == old(State()).(calls := old(State()).calls + [Expected(callee, count)])
    {
      hide Owned, Threaded, SameOutside, SameList, Under, WellFormed, InTree, Tree, View, OnlyCalls, CallsOf;
      ghost var m, a := heap.mem, heap.at;
      OrderingList(m, a);
      var ordering := heap.NewRecord(Ordered(callee));
      RecordAdded(m, a, heap.roots, old(heap.loose), ordering, Ordered(callee));
      ghost var m1, a1 := heap.mem, heap.at;
      OrderingList(m1, a1);
      heap.Enqueue(ORDERING, ordering, count);
      CallAppended(View(m1, a1, ORDERING, 0).entries, callee, count);
      OrderingChanged(m1, a1, heap.mem, heap.at);
    }

    /** _expect_function_call. */
    method ExpectFunctionCall(callee: string, count: int) returns (end: End)
      requires Valid() && heap.at.freed == {}
      modifies heap
      ensures Valid() && heap.at.freed == {} && heap.fault == old(heap.fault) && heap.loose == old(heap.loose)
      ensures (State(), end) == Step(old(State()), Op.ExpectFunctionCall(callee, count))
    {
      hide Valid, State, Heap.Valid, StateOf, Shape, WellFormed, WellFormedState, Add, Get, Called;
      if count == 0 {
        return Fails;
      }
      DeclareCall(callee, count);
      end := Returns;
    }

    /** The search of _function_called: skips entries that may be skipped, up to one for the callee. */
    method FindExpected(callee: string) returns (current: Ptr, found: bool, ghost k: nat)
      requires Valid() && heap.at.freed == {}
      ensures var s := State().calls;
              && k == Scan(s, callee)
              && (found <==> k < |s| && s[k].callee == callee)
      ensures ORDERING in heap.mem.lists && current == Link(heap.mem.lists[ORDERING], ORDERING, k)
    {
      hide *;
      hide Valid, State;
      OrderingHead();
      ghost var s := State().calls;
      current, found, k := heap.cells[ORDERING].next, false, 0;
      while current != ORDERING
        invariant 0 <= k <= |s| && !found
        invariant ORDERING in heap.mem.lists && current == Link(heap.mem.lists[ORDERING], ORDERING, k)
        invariant forall i :: 0 <= i < k ==> s[i].callee != callee && s[i].count <= -2
        decreases |s| - k
      {
        ExpectedAt(k);
        found := heap.records[heap.cells[current].value].callee == callee;
        if found || heap.cells[current].refcount > -2 {
          break;
        }
        current := heap.cells[current].next;
        k := k + 1;
      }
      ExpectedAt(k);
      ScanIs(s, callee, k);
    }

    /** Where the list of expected calls starts. */
    lemma OrderingHead()
      requires Valid()
      ensures heap.Valid() && ORDERING in heap.mem.lists && |heap.mem.lists[ORDERING]| == |State().calls|
      ensures ORDERING in heap.cells && heap.cells[ORDERING].next == Link(heap.mem.lists[ORDERING], ORDERING, 0)
    {
      OrderingList(heap.mem, heap.at);
      heap.HeadLinks(ORDERING);
    }

    /** What the memory holds of the k-th expected call. */
    lemma ExpectedAt(k: nat)
      requires Valid() && heap.at.freed == {} && k <= |State().calls|
      ensures ORDERING in heap.mem.lists && |heap.mem.lists[ORDERING]| == |State().calls|
      ensures Link(heap.mem.lists[ORDERING], ORDERING, k) == ORDERING <==> k == |State().calls|
      ensures k < |State().calls| ==>
                var node, e := Link(heap.mem.lists[ORDERING], ORDERING, k), State().calls[k];
                && node in heap.cells && heap.cells[node].value in heap.records
                && heap.records[heap.cells[node].value] == Ordered(e.callee) && heap.cells[node].refcount == e.count
                && heap.cells[node].next == Link(heap.mem.lists[ORDERING], ORDERING, k + 1)
                && node == heap.mem.lists[ORDERING][k].node
    {
      OrderingList(heap.mem, heap.at);
      heap.LinkEnds(ORDERING, k);
      if k < |State().calls| {
        heap.NodeHolds(ORDERING, k);
        heap.Concrete();
        EntryAt(heap.mem, heap.at, heap.roots, heap.loose, k);
      }
    }

    /** _function_called. */
    method FunctionCalled(callee: string) returns (end: End)
      requires Valid() && heap.at.freed == {}
      modifies heap
      ensures Valid() && heap.at.freed == {} && heap.fault == old(heap.fault) && heap.loose == old(heap.loose)
      ensures (State(), end) == Step(old(State()), Op.FunctionCalled(callee))
    {
      hide *;
      hide Valid, State;
      ghost var st := State();
      var current, found;
      ghost var k;
      current, found, k := FindExpected(callee);
      CallStep(st, callee, k, found);
      if !found {
        return Fails;
      }
      ExpectedAt(k);
      if heap.cells[current].refcount > -2 {
        CountCall(current, k);
        ExpectedAt(k);
        if heap.cells[current].refcount == 0 {
          DropCall(current, k);
          CountedOut(st.calls, k);
        }
      }
      end := Returns;
    }

    /** --node->refcount on the k-th expected call. */
    method CountCall(node: Ptr, ghost k: nat)
      requires Valid() && heap.at.freed == {} && k < |State().calls|
      requires ORDERING in heap.mem.lists && node == Link(heap.mem.lists[ORDERING], ORDERING, k)
      modifies heap
      ensures Valid() && heap.at.freed == {} && heap.fault == old(heap.fault) && heap.loose == old(heap.loose)
      ensures var calls := old(State()).calls;
              State() == old(State()).(calls := calls[k := Expected(calls[k].callee, calls[k].count - 1)])
      ensures ORDERING in heap.mem.lists && node == Link(heap.mem.lists[ORDERING], ORDERING, k)
    {
      hide Owned, Threaded, SameOutside, SameList, Under, WellFormed, InTree, Tree, View, OnlyCalls, CallsOf, Shrinks;
      ghost var m, a := heap.mem, heap.at;
      OrderingList(m, a);
      EntryAt(m, a, heap.roots, heap.loose, k);
      CalledAt(View(m, a, ORDERING, 0).entries, k);
      heap.CountDown(node, ORDERING, k);
      OrderingChanged(m, a, heap.mem, heap.at);
      OrderingList(heap.mem, heap.at);
    }

    /** The pass over the expected calls has gone through the first done of them, of which i are left;
        current is the node to look at next. */
    ghost predicate SweptTo(st: State, done: nat, i: nat, current: Ptr)
      reads heap
    {
      && Valid() && heap.at.freed == {} && done <= |st.calls| && i == |SweepCalls(st.calls[..done])|
      && State() == st.(calls := SweepCalls(st.calls[..done]) + st.calls[done..])
      && ORDERING in heap.mem.lists && current == Link(heap.mem.lists[ORDERING], ORDERING, i)
    }

    /** remove_always_return_values_from_list on the expected calls: every entry that may be skipped goes. */
    method RemoveAlwaysReturnValuesFromList()
      requires Valid() && heap.at.freed == {}
      modifies heap
      ensures Valid() && heap.at.freed == {} && heap.fault == old(heap.fault) && heap.loose == old(heap.loose)
      ensures State() == old(State()).(calls := SweepCalls(old(State()).calls))
    {
      hide *;
      ghost var st := State();
      OrderingHead();
      var current := heap.cells[ORDERING].next;
      ghost var i, done := 0, 0;
      SweepBegins(current);
      while current != ORDERING
        invariant SweptTo(st, done, i, current)
        invariant heap.fault == old(heap.fault) && heap.loose == old(heap.loose)
        decreases |st.calls| - done
      {
        current, i := SweepNext(st, done, i, current);
        done := done + 1;
      }
      SweepEnds(st, done, i);
    }

    lemma SweepBegins(current: Ptr)
      requires Valid() && heap.at.freed == {}
      requires ORDERING in heap.mem.lists && current == Link(heap.mem.lists[ORDERING], ORDERING, 0)
      ensures SweptTo(State(), 0, 0, current)
    {
      hide Valid;
      assert SweepCalls(State().calls[..0]) + State().calls[0..] == State().calls;
    }

    lemma SweepEnds(st: State, done: nat, i: nat)
      requires SweptTo(st, done, i, ORDERING)
      ensures Valid() && heap.at.freed == {} && State() == st.(calls := SweepCalls(st.calls))
    {
      hide Valid, State, SweepCalls;
      SweptCount(st, done, i);
      ExpectedAt(i);
      assert st.calls[..done] == st.calls && SweepCalls(st.calls) + st.calls[done..] == SweepCalls(st.calls);
    }

    lemma SweptCount(st: State, done: nat, i: nat)
      requires SweptTo(st, done, i, ORDERING)
      ensures i <= |State().calls| == i + |st.calls| - done
    {
      hide Valid, State, SweepCalls;
    }

    /** One round of the pass; the successor is saved before the node may go. */
    method SweepNext(ghost st: State, ghost done: nat, ghost i: nat, current: Ptr) returns (next: Ptr, ghost i': nat)
      requires SweptTo(st, done, i, current) && current != ORDERING
      modifies heap
      ensures done < |st.calls| && SweptTo(st, done + 1, i', next)
      ensures heap.fault == old(heap.fault) && heap.loose == old(heap.loose)
    {
      hide *;
      hide Valid, State;
      SweptLength(st, done, i, current);
      ExpectedAt(i);
      ghost var now := State().calls;
      SweepCallsRound(st.calls, done, now);
      ghost var nodes := heap.mem.lists[ORDERING];
      next := heap.cells[current].next;
      i' := i;
      if heap.cells[current].refcount < -1 {
        DropCall(current, i);
        NextKept(nodes, heap.mem.lists[ORDERING], ORDERING, i, false);
      } else {
        i' := i + 1;
      }
      SweptOn(st, done + 1, i', next);
    }

    lemma SweptLength(st: State, done: nat, i: nat, current: Ptr)
      requires SweptTo(st, done, i, current) && current != ORDERING
      ensures Valid() && heap.at.freed == {} && i < |State().calls| && done < |st.calls|
      ensures ORDERING in heap.mem.lists && current == Link(heap.mem.lists[ORDERING], ORDERING, i)
      ensures State().calls == SweepCalls(st.calls[..done]) + st.calls[done..] && i == |SweepCalls(st.calls[..done])|
      ensures State() == st.(calls := State().calls)
    {
      hide Valid, State, SweepCalls;
      ExpectedAt(i);
    }

    lemma SweptOn(st: State, done: nat, i: nat, current: Ptr)
      requires Valid() && heap.at.freed == {} && done <= |st.calls| && i == |SweepCalls(st.calls[..done])|
      requires State() == st.(calls := SweepCalls(st.calls[..done]) + st.calls[done..])
      requires ORDERING in heap.mem.lists && current == Link(heap.mem.lists[ORDERING], ORDERING, i)
      ensures SweptTo(st, done, i, current)
    {
    }

    method DropCall(node: Ptr, ghost k: nat)
      requires Valid() && heap.at.freed == {} && k < |State().calls|
      requires ORDERING in heap.mem.lists && node == Link(heap.mem.lists[ORDERING], ORDERING, k)
      modifies heap
      ensures Valid() && heap.at.freed == {} && heap.fault == old(heap.fault) && heap.loose == old(heap.loose)
      ensures State() == old(State()).(calls := old(State()).calls[..k] + old(State()).calls[k + 1..])
      ensures ORDERING in old(heap.mem.lists) && k < |old(heap.mem.lists)[ORDERING]| && ORDERING in heap.mem.lists
      ensures heap.mem.lists[ORDERING] == Without(old(heap.mem.lists)[ORDERING], k)
    {
      hide Owned, Threaded, SameOutside, SameList, Under, WellFormed, InTree, Tree, View, OnlyCalls, CallsOf, Shrinks;
      ghost var m, a := heap.mem, heap.at;
      OrderingList(m, a);
      EntryAt(m, a, heap.roots, heap.loose, k);
      CalledAt(View(m, a, ORDERING, 0).entries, k);
      heap.DropAt(node, ORDERING, k);
      OrderingChanged(m, a, heap.mem, heap.at);
      OrderingList(heap.mem, heap.at);
      LooseKept(m, a, heap.mem, heap.at, heap.roots, heap.loose);
    }

    /** One API call of the phase under way. */
    method Call(op: Op) returns (end: End, result: Option<Datum>, ghost orphans: set<Ptr>, ghost lost: Ptr)
      requires Valid() && heap.at.freed == {}
      modifies this`stop, this`skip, heap
      ensures Valid() && heap.fault == old(heap.fault)
      ensures AfterCall(old(State()), op, end, result, State(), heap.at.freed == {}, orphans)
      ensures heap.at.freed != {} ==> InTree(heap.mem, RESULTS, 1, lost) && lost !in heap.mem.records
      ensures heap.loose == old(heap.loose) + orphans && orphans !! old(heap.loose)
      ensures skip == (old(skip) || end == Skips) && stop == (old(stop) || end == Stops)
    {
      hide *;
      hide Valid, State;
      ghost var st := State();
      result, orphans, lost := None, {}, 0;
      if op.WillReturn? {
        end, orphans := WillReturn(op.callee, op.tag, op.value, op.count);
        AfterWillReturn(st, op, end, State(), orphans);
      } else if op.Mock? {
        end, result, lost := Mock(op.callee, op.wanted);
        AfterMock(st, op, end, result, State(), heap.at.freed == {});
      } else {
        end := OtherCall(op);
        AfterOther(st, op, end, State());
      }
    }

    /** A call that has nothing to do with the values of mocks. */
    method OtherCall(op: Op) returns (end: End)
      requires Valid() && heap.at.freed == {} && !op.WillReturn? && !op.Mock?
      modifies this`stop, this`skip, heap
      ensures Valid() && heap.at.freed == {} && heap.fault == old(heap.fault) && heap.loose == old(heap.loose)
      ensures (State(), end) == Step(old(State()), op)
      ensures skip == (old(skip) || end == Skips) && stop == (old(stop) || end == Stops)
    {
      hide *;
      hide Valid, State;
      Jumping(State(), op);
      match op
      case ExpectCheck(f, p, accepts, n) => ExpectCheck(f, p, accepts, None, n); end := Returns;
      case CheckExpected(f, p, v) => end := CheckExpected(f, p, v);
      case ExpectFunctionCall(f, n) => end := ExpectFunctionCall(f, n);
      case FunctionCalled(f) => end := FunctionCalled(f);
      case Fail | Skip | Stop => end := Jump(op);
    }

    /** fail(), skip() and stop(). */
    method Jump(op: Op) returns (end: End)
      requires Valid() && (op.Fail? || op.Skip? || op.Stop?)
      modifies this`stop, this`skip
      ensures Valid() && (State(), end) == Step(old(State()), op)
      ensures skip == (old(skip) || end == Skips) && stop == (old(stop) || end == Stops)
    {
      Jumping(State(), op);
      hide *;
      hide Valid, State;
      match op
      case Skip => skip, end := true, Skips;
      case Stop => stop, end := true, Stops;
      case _ => end := Fails;
    }

    /** The body of a phase: its API calls, up to the one that jumps out of it. */
    method Run(ops: seq<Op>) returns (end: End, values: seq<(seq<string>, Datum)>, ghost orphans: set<Ptr>,
                                      ghost lost: Ptr)
      requires Valid() && heap.at.freed == {}
      modifies this`stop, this`skip, heap
      ensures Valid() && heap.fault == old(heap.fault)
      ensures AfterRun(old(State()), ops, end, values, State(), heap.at.freed == {}, orphans)
      ensures heap.at.freed != {} ==> InTree(heap.mem, RESULTS, 1, lost) && lost !in heap.mem.records
      ensures heap.loose == old(heap.loose) + orphans && orphans !! old(heap.loose)
      ensures skip == (old(skip) || end == Skips) && stop == (old(stop) || end == Stops)
      decreases |ops|
    {
      hide *;
      hide Valid, State;
      ghost var st := State();
      if ops == [] {
        RunNone(st);
        return Returns, [], {}, 0;
      }
      var result;
      end, result, orphans, lost := Call(ops[0]);
      values := [];
      if end != Returns {
        RunJumps(st, ops, end, result, State(), heap.at.freed == {}, orphans);
        return;
      }
      ghost var st1 := State();
      CallReturns(st, ops[0], result, st1, heap.at.freed == {}, orphans);
      var more;
      end, more, orphans, lost := Run(ops[1..]);
      RunGoesOn(st, ops, result, st1, end, more, State(), heap.at.freed == {}, orphans);
      values := Results(ops[0], result) + more;
    }

    /** has_leftover_values. */
    method HasLeftoverValues() returns (leftover: bool)
      requires Valid() && heap.at.freed == {}
      modifies heap
      ensures Valid() && heap.at.freed == {} && heap.fault == old(heap.fault) && heap.loose == old(heap.loose)
      ensures leftover <==> HasLeftovers(old(State()))
    {
      hide Owned, Threaded, SameOutside, Tree, View, WellFormed;
      hide Sweep, Leftovers, SweepCalls, OnlyCalls, CallsOf, Shrinks;
      ghost var st, m, a := State(), heap.mem, heap.at;
      SweptShape(st.results, 1);
      SweptShape(st.params, 2);
      heap.RemoveAlwaysReturnValues(RESULTS, 1);
      ResultsChanged(m, a, heap.mem, heap.at);
      LooseKept(m, a, heap.mem, heap.at, heap.roots, heap.loose);
      var n, left := heap.CheckForLeftoverValues(RESULTS, 1);
      leftover := n > 0;
      ghost var m1, a1 := heap.mem, heap.at;
      heap.RemoveAlwaysReturnValues(PARAMS, 2);
      ParamsChanged(m1, a1, heap.mem, heap.at);
      LooseKept(m1, a1, heap.mem, heap.at, heap.roots, heap.loose);
      n, left := heap.CheckForLeftoverValues(PARAMS, 2);
      leftover := leftover || n > 0;
      RemoveAlwaysReturnValuesFromList();
      var names;
      n, names := CheckForLeftoverValuesList();
      leftover := leftover || n > 0;
    }

    /** check_for_leftover_values_list: the number of expected calls that are left, and their
        functions, read from the records to report them. */
    method CheckForLeftoverValuesList() returns (count: nat, names: seq<string>)
      requires Valid() && heap.at.freed == {}
      ensures count == |State().calls| == |names|
      ensures forall i :: 0 <= i < count ==> names[i] == State().calls[i].callee
    {
      hide *;
      hide Valid, State;
      OrderingHead();
      count, names := 0, [];
      var node := heap.cells[ORDERING].next;
      while node != ORDERING
        invariant count == |names| <= |State().calls|
        invariant ORDERING in heap.mem.lists && node == Link(heap.mem.lists[ORDERING], ORDERING, count)
        invariant forall i :: 0 <= i < count ==> names[i] == State().calls[i].callee
        decreases |State().calls| - count
      {
        ExpectedAt(count);
        names := names + [heap.records[heap.cells[node].value].callee];
        node := heap.cells[node].next;
        count := count + 1;
      }
      ExpectedAt(count);
    }

    /** teardown_testing: nothing is left of the three lists, and nothing is left of the heap but what
        was lost before. */
    method TeardownTesting(ghost lost: Ptr)
      requires Valid()
      modifies heap
      ensures Valid() && State() == Nothing && heap.at.freed == old(heap.at.freed) && heap.loose == old(heap.loose)
      ensures heap.mem.symbols == map[] && heap.mem.records.Keys == heap.loose && heap.mem.nodes == {}
      ensures old(heap.fault) ==> heap.fault
      ensures old(heap.at.freed) == {} ==> heap.fault == old(heap.fault)
      ensures InTree(old(heap.mem), RESULTS, 1, lost) && lost !in old(heap.mem.records) ==> heap.fault
    {
      hide Owned, Threaded, SameOutside, Tree, View, WellFormed, CallsOf, OnlyCalls, Shrinks, InTree;
      ghost var m, a := heap.mem, heap.at;
      heap.ListFree(RESULTS, 1, lost);
      EmptiedTree(heap.mem, heap.at, RESULTS, 1, m, a);
      ResultsChanged(m, a, heap.mem, heap.at);
      LooseKept(m, a, heap.mem, heap.at, heap.roots, heap.loose);
      ghost var m1, a1 := heap.mem, heap.at;
      heap.ListFree(PARAMS, 2, lost);
      EmptiedTree(heap.mem, heap.at, PARAMS, 2, m1, a1);
      ParamsChanged(m1, a1, heap.mem, heap.at);
      LooseKept(m1, a1, heap.mem, heap.at, heap.roots, heap.loose);
      ghost var m2, a2 := heap.mem, heap.at;
      OrderingList(m2, a2);
      heap.ListFree(ORDERING, 0, lost);
      EmptiedTree(heap.mem, heap.at, ORDERING, 0, m2, a2);
      NoCalls();
      OrderingChanged(m2, a2, heap.mem, heap.at);
      LooseKept(m2, a2, heap.mem, heap.at, heap.roots, heap.loose);
      NothingStored(heap.mem, heap.at, heap.roots, heap.loose);
    }

    /** initialize_testing, of lists that are empty. */
    method InitializeTesting()
      requires Valid() && State() == Nothing
      modifies heap
      ensures Valid() && State() == Nothing
      ensures heap.mem == old(heap.mem) && heap.at == old(heap.at) && heap.loose == old(heap.loose) &&
              heap.fault == old(heap.fault)
    {
      HeadsEmpty(heap.mem, heap.at);
      hide Owned, Threaded, Shape, StateOf;
      heap.ListInitialize(RESULTS);
      heap.ListInitialize(PARAMS);
      heap.ListInitialize(ORDERING);
    }

    /** What comes before the function of a phase. */
    method Begin()
      requires Valid() && State() == Nothing
      modifies this`running, heap
      ensures Valid() && State() == Nothing && running
      ensures heap.mem == old(heap.mem) && heap.at == old(heap.at) && heap.loose == old(heap.loose) &&
              heap.fault == old(heap.fault)
    {
      hide *;
      hide Valid, State;
      InitializeTesting();
      running := true;
    }

    /** The return code: a phase that jumps fails, unless it stopped and has nothing left over. */
    method ReturnCode(ph: Phase, end: End) returns (rc: int)
      requires Valid() && (stop <==> end == Stops) && (heap.at.freed != {} ==> end == Fails)
      modifies this`running, this`stop, heap
      ensures Valid() && !running && !stop && heap.at.freed == old(heap.at.freed)
      ensures rc == Verdict(ph, old(State()), end).0
      ensures heap.loose == old(heap.loose) && heap.fault == old(heap.fault)
      ensures end == Fails ==> heap.mem == old(heap.mem)
    {
      VerdictIs(ph, State(), end);
      hide *;
      hide Valid, State;
      var jumped := end != Returns || ((ph.Test? || ph.Teardown?) && ph.body.leaks);
      rc := if ph.Setup? || ph.Teardown? then ph.body.rc else 0;
      if !jumped {
        jumped := HasLeftoverValues();
      }
      running := false;
      if jumped {
        rc := -1;
        if stop {
          var leftover := HasLeftoverValues();
          rc := if leftover then -1 else 0;
          stop := false;
        }
      }
    }

    /** What comes after the function of a phase: the return code, and the end of all that was stored. */
    method Finish(ph: Phase, end: End, ghost lost: Ptr) returns (rc: int)
      requires Valid() && (stop <==> end == Stops)
      requires heap.at.freed != {} ==> end == Fails && InTree(heap.mem, RESULTS, 1, lost) && lost !in heap.mem.records
      modifies this`running, this`stop, heap
      ensures Valid() && State() == Nothing && !running && !stop
      ensures rc == Verdict(ph, old(State()), end).0
      ensures heap.mem.symbols == map[] && heap.mem.records.Keys == heap.loose && heap.mem.nodes == {}
      ensures heap.loose == old(heap.loose) && heap.at.freed == old(heap.at.freed)
      ensures heap.fault == (old(heap.fault) || old(heap.at.freed) != {})
    {
      hide *;
      hide Valid, State;
      rc := ReturnCode(ph, end);
      TeardownTesting(lost);
    }

    /** cmocka_run_one_test_or_fixture. However the phase ended, no expectation and no flag but skip
        crosses its end, and all that was allocated for it is freed, once: except that a value declared
        to be returned 0 times is lost, and that something is freed twice exactly if a mock with the
        wrong type tag left its value in the queue. */
    method RunOneTestOrFixture(ph: Phase) returns (rc: int, ghost orphans: set<Ptr>)
      requires Valid() && State() == Nothing && heap.at.freed == {} && !heap.fault && !stop
      modifies this, heap
      ensures Valid() && State() == Nothing && !running && !stop
      ensures rc == RunPhase(ph).0 && skip == (old(skip) || RunPhase(ph).1)
      ensures heap.mem.symbols == map[] && heap.mem.records.Keys == heap.loose && heap.mem.nodes == {}
      ensures heap.loose == old(heap.loose) + orphans && orphans !! old(heap.loose)
      ensures |orphans| == if RunLosesRecord(Nothing, OpsOf(ph)) then 1 else 0
      ensures heap.fault <==> RunFreesStored(Nothing, OpsOf(ph))
      ensures !heap.fault ==> heap.at.freed == {}
    {
      PhaseUnfold(ph);
      hide *;
      hide Valid, State;
      Begin();
      var end, values;
      ghost var lost;
      end, values, orphans, lost := Run(OpsOf(ph));
      RunUnfolded(Nothing, OpsOf(ph), end, values, State(), heap.at.freed == {}, orphans);
      VerdictIs(ph, State(), end);
      VerdictIs(ph, RunOps(Nothing, OpsOf(ph)).0, end);
      rc := Finish(ph, end, lost);
    }
  }

  lemma NothingYet(m: Memory, at: Labels)
    requires m == Memory(map p | p in HEADS :: [], {}, map[], map[])
    requires at == Labels(map p | p in HEADS :: [HEADS[p]], map[], map[], {})
    ensures Shape(m, at) && StateOf(m, at) == Nothing
  {
  }

  /** Loose records are still records after some stored objects were freed. */
  lemma LooseKept(m: Memory, at: Labels, m': Memory, at': Labels, roots: set<Ptr>, loose: set<Ptr>)
    requires Owned(m, at, roots, loose) && Owned(m', at', roots, loose) && Shrinks(m, m')
    requires loose <= m.records.Keys
    ensures loose <= m'.records.Keys
  {
  }

  lemma AfterWillReturn(st: State, op: Op, end: End, st': State, orphans: set<Ptr>)
    requires WellFormedState(st) && op.WillReturn? && (st', end) == Step(st, op)
    requires |orphans| == if op.count == 0 then 1 else 0
    ensures AfterCall(st, op, end, None, st', true, orphans) && end in {Returns, Fails}
  {
  }

  lemma AfterMock(st: State, op: Op, end: End, result: Option<Datum>, st': State, sound: bool)
    requires WellFormedState(st) && op.Mock? && end == Step(st, op).1
    requires result == if end == Returns then Get(st.results, [op.callee]).value else None
    requires (sound <==> !FreesStored(st, op)) && (sound ==> st' == Step(st, op).0)
    ensures AfterCall(st, op, end, result, st', sound, {}) && end in {Returns, Fails}
  {
    GetShape(st.results, [op.callee]);
  }

  lemma AfterOther(st: State, op: Op, end: End, st': State)
    requires WellFormedState(st) && !op.WillReturn? && !op.Mock? && (st', end) == Step(st, op)
    ensures AfterCall(st, op, end, None, st', true, {})
  {
  }

  /** The calls that do no more than jump. */
  lemma Jumping(st: State, op: Op)
    requires WellFormedState(st)
    ensures (op.Fail? ==> Step(st, op) == (st, Fails)) && (op.Skip? ==> Step(st, op) == (st, Skips))
    ensures (op.Stop? ==> Step(st, op) == (st, Stops)) && (op.ExpectCheck? ==> Step(st, op).1 == Returns)
    ensures Step(st, op).1 in {Skips, Stops} ==> op.Skip? || op.Stop?
  {
  }

  lemma RunNone(st: State)
    requires WellFormedState(st)
    ensures AfterRun(st, [], Returns, [], st, true, {})
  {
  }

  /** A run whose first call jumps. */
  lemma RunJumps(st: State, ops: seq<Op>, end: End, result: Option<Datum>, st': State, sound: bool, orphans: set<Ptr>)
    requires WellFormedState(st) && ops != [] && AfterCall(st, ops[0], end, result, st', sound, orphans)
    requires end != Returns
    ensures AfterRun(st, ops, end, [], st', sound, orphans)
  {
    hide Step, FreesStored, Results, HandedBy;
    RunUnfold(st, ops);
  }

  /** A call that returns breaks no rule. */
  lemma CallReturns(st: State, op: Op, result: Option<Datum>, st': State, sound: bool, orphans: set<Ptr>)
    requires WellFormedState(st) && AfterCall(st, op, Returns, result, st', sound, orphans)
    ensures sound && orphans == {} && WellFormedState(st')
  {
    RunUnfold(st, [op]);
  }

  lemma RunGoesOn(st: State, ops: seq<Op>, result: Option<Datum>, st1: State, end: End,
                  more: seq<(seq<string>, Datum)>, st': State, sound: bool, orphans: set<Ptr>)
    requires WellFormedState(st) && ops != [] && AfterCall(st, ops[0], Returns, result, st1, true, {})
    requires WellFormedState(st1) && AfterRun(st1, ops[1..], end, more, st', sound, orphans)
    ensures AfterRun(st, ops, end, Results(ops[0], result) + more, st', sound, orphans)
  {
    hide Step, FreesStored, Results, HandedBy;
    RunUnfold(st, ops);
  }

  lemma RunUnfolded(st: State, ops: seq<Op>, end: End, values: seq<(seq<string>, Datum)>, st': State, sound: bool,
                    orphans: set<Ptr>)
    requires WellFormedState(st) && AfterRun(st, ops, end, values, st', sound, orphans)
    ensures end == RunOps(st, ops).1 && (sound <==> !RunFreesStored(st, ops))
    ensures if sound then st' == RunOps(st, ops).0 else end == Fails
    ensures |orphans| == if RunLosesRecord(st, ops) then 1 else 0
  {
  }

  lemma RunUnfold(st: State, ops: seq<Op>)
    requires WellFormedState(st)
    ensures ops == [] ==> Handed(st, ops) == [] && RunOps(st, ops) == (st, Returns)
    ensures ops == [] ==> !RunFreesStored(st, ops) && !RunLosesRecord(st, ops)
    ensures ops != [] ==>
              var (st', end) := Step(st, ops[0]);
              && WellFormedState(st')
              && RunOps(st, ops) == (if end == Returns then RunOps(st', ops[1..]) else (st', end))
              && Handed(st, ops) == (if end == Returns then HandedBy(st, ops[0]) + Handed(st', ops[1..]) else [])
              && (RunFreesStored(st, ops) <==>
                  (FreesStored(st, ops[0]) || (end == Returns && RunFreesStored(st', ops[1..]))))
              && (RunLosesRecord(st, ops) <==> LosesRecord(ops[0]) || (end == Returns && RunLosesRecord(st', ops[1..])))
              && (FreesStored(st, ops[0]) || LosesRecord(ops[0]) ==> end == Fails)
              && !(FreesStored(st, ops[0]) && LosesRecord(ops[0]))
  {
  }

  lemma PhaseUnfold(ph: Phase)
    ensures var (st, end) := RunOps(Nothing, OpsOf(ph)); RunPhase(ph) == Verdict(ph, st, end)
  {
  }

  lemma VerdictIs(ph: Phase, st: State, end: End)
    requires WellFormedState(st)
    ensures Verdict(ph, st, end) ==
              match end
              case Returns =>
                if ((ph.Test? || ph.Teardown?) && ph.body.leaks) || HasLeftovers(st) then (-1, false)
                else (if ph.Setup? || ph.Teardown? then ph.body.rc else 0, false)
              case Fails => (-1, false)
              case Skips => (-1, true)
              case Stops => (if HasLeftovers(st) then -1 else 0, false)
  {
  }

  /** A head whose list was emptied is a tree with nothing in it. */
  lemma EmptiedTree(m: Memory, at: Labels, hd: Ptr, depth: nat, m0: Memory, at0: Labels)
    requires hd in at0.path && SameOutside(m0, at0, m, at, hd) && hd in m.lists && m.lists[hd] == []
    ensures Tree(m, at, hd, depth) && View(m, at, hd, depth) == EmptyStore(depth)
    ensures WellFormed(View(m, at, hd, depth), depth)
    ensures EmptyStore<Datum>(depth) == if depth == 0 then Queue([]) else Symbols([])
  {
    assert depth == 0 ==> View(m, at, hd, depth).entries == [];
    assert depth > 0 ==> View(m, at, hd, depth).kids == [];
  }

  lemma NoCalls()
    ensures OnlyCalls([]) && CallsOf([]) == []
  {
  }

  lemma HeadsEmpty(m: Memory, at: Labels)
    requires Shape(m, at) && StateOf(m, at) == Nothing
    ensures RESULTS in m.lists && m.lists[RESULTS] == []
    ensures PARAMS in m.lists && m.lists[PARAMS] == []
    ensures ORDERING in m.lists && m.lists[ORDERING] == []
  {
    assert |View(m, at, RESULTS, 1).kids| == |m.lists[RESULTS]|;
    assert |View(m, at, PARAMS, 2).kids| == |m.lists[PARAMS]|;
    OrderingList(m, at);
  }

  /** With the three lists empty, there is no map value: the path to it would have to start there. */
  lemma {:induction false} NoMapValue(m: Memory, at: Labels, roots: set<Ptr>, loose: set<Ptr>, p: Ptr)
    requires Owned(m, at, roots, loose) && loose <= m.records.Keys
    requires forall r :: r in roots ==> r in m.lists && m.lists[r] == []
    ensures p !in m.symbols
    decreases if p in at.path then |at.path[p]| else 0
  {
    if p in m.symbols {
      assert p !in loose && Placed(m.lists, at.home, p);
      var h := at.home[p];
      if h !in roots {
        NoMapValue(m, at, roots, loose, h);
      }
    }
  }

  lemma NothingStored(m: Memory, at: Labels, roots: set<Ptr>, loose: set<Ptr>)
    requires Shape(m, at) && StateOf(m, at) == Nothing
    requires Owned(m, at, roots, loose) && roots == HEADS.Keys && loose <= m.records.Keys
    ensures m.symbols == map[] && m.records.Keys == loose && m.nodes == {}
  {
    HeadsEmpty(m, at);
    forall p ensures p !in m.symbols {
      NoMapValue(m, at, roots, loose, p);
    }
    OwnedStored(m, at, roots, loose);
    HeldSomewhere(m, at);
    PlacedSomewhere(m, at, loose);
    hide AllHeld, AllStored, AllPlaced, Shape;
    assert forall h :: h in m.lists ==> m.lists[h] == [];
  }

  lemma HeldSomewhere(m: Memory, at: Labels)
    requires AllHeld(m, at)
    ensures forall n :: n in m.nodes ==> exists h :: h in m.lists && m.lists[h] != []
  {
    forall n | n in m.nodes ensures exists h :: h in m.lists && m.lists[h] != [] {
      assert HasNode(m.lists[at.holder[n]], n);
    }
  }

  lemma PlacedSomewhere(m: Memory, at: Labels, loose: set<Ptr>)
    requires AllPlaced(m, at, loose)
    ensures forall p :: p in m.records && p !in loose ==> exists h :: h in m.lists && m.lists[h] != []
  {
    forall p | p in m.records && p !in loose ensures exists h :: h in m.lists && m.lists[h] != [] {
      assert Placed(m.lists, at.home, p);
    }
  }

  lemma OrderingList(m: Memory, at: Labels)
    requires Shape(m, at)
    ensures ORDERING in m.lists && ORDERING in at.path && WellFormed(View(m, at, ORDERING, 0), 0)
    ensures View(m, at, ORDERING, 0).Queue? && |View(m, at, ORDERING, 0).entries| == |m.lists[ORDERING]|
    ensures |StateOf(m, at).calls| == |m.lists[ORDERING]|
  {
  }

  lemma CallAppended(entries: seq<Entry<Datum>>, callee: string, count: int)
    requires OnlyCalls(entries)
    ensures OnlyCalls(entries + [Entry(Ordered(callee), count)])
    ensures CallsOf(entries + [Entry(Ordered(callee), count)]) == CallsOf(entries) + [Expected(callee, count)]
  {
  }

  /** The k-th node of the ordering list, as the list of calls shows it. */
  lemma EntryAt(m: Memory, at: Labels, roots: set<Ptr>, loose: set<Ptr>, k: nat)
    requires Shape(m, at) && Owned(m, at, roots, loose) && at.freed == {} && k < |m.lists[ORDERING]|
    ensures View(m, at, ORDERING, 0).Queue? && OnlyCalls(View(m, at, ORDERING, 0).entries)
    ensures |View(m, at, ORDERING, 0).entries| == |m.lists[ORDERING]|
    ensures var entries := View(m, at, ORDERING, 0).entries;
            var node, entry, e := m.lists[ORDERING][k], entries[k], CallsOf(entries)[k];
            && entry == Entry(Ordered(e.callee), e.count)
            && node.value in m.records && m.records[node.value] == Ordered(e.callee) && node.refcount == e.count
  {
    assert View(m, at, ORDERING, 0).entries[k].value == RecordAt(m, m.lists[ORDERING][k].value);
  }

  /** What a call does to the list, given where the search for it stopped. */
  lemma CallStep(st: State, callee: string, k: nat, found: bool)
    requires WellFormedState(st) && k == Scan(st.calls, callee)
    requires found <==> k < |st.calls| && st.calls[k].callee == callee
    ensures !found ==> Step(st, Op.FunctionCalled(callee)) == (st, Fails)
    ensures found ==>
              var n := st.calls[k].count;
              Step(st, Op.FunctionCalled(callee)) ==
              (if n <= -2 then st else st.(calls := if n == 1 then st.calls[..k] + st.calls[k + 1..]
                                                    else st.calls[k := Expected(callee, n - 1)]), Returns)
  {
  }

  lemma CountedOut(s: seq<Expected>, k: nat)
    requires k < |s|
    ensures var t := s[k := Expected(s[k].callee, s[k].count - 1)]; t[..k] + t[k + 1..] == s[..k] + s[k + 1..]
  {
  }

  lemma ScanIs(s: seq<Expected>, f: string, k: nat)
    requires k <= |s| && forall i :: 0 <= i < k ==> s[i].callee != f && s[i].count <= -2
    requires k < |s| ==> s[k].callee == f || s[k].count > -2
    ensures Scan(s, f) == k
  {
  }

  /** Counting an entry down, or taking it out, shows in the list of calls. */
  lemma CalledAt(entries: seq<Entry<Datum>>, k: nat)
    requires OnlyCalls(entries) && k < |entries|
    ensures var entries' := entries[k := Entry(entries[k].value, entries[k].count - 1)];
            && OnlyCalls(entries')
            && CallsOf(entries') == CallsOf(entries)[k := Expected(entries[k].value.callee, entries[k].count - 1)]
    ensures var rest := Without(entries, k);
            OnlyCalls(rest) && CallsOf(rest) == CallsOf(entries)[..k] + CallsOf(entries)[k + 1..]
  {
  }

  // ---- The end-of-test pass over the expected calls

  lemma {:induction false} SweepCallsAppend(s: seq<Expected>, e: Expected)
    ensures SweepCalls(s + [e]) == SweepCalls(s) + if e.count < -1 then [] else [e]
    decreases |s|
  {
    if s == [] {
      assert s + [e] == [e];
    } else {
      SweepCallsAppend(s[1..], e);
      assert (s + [e])[1..] == s[1..] + [e] && (s + [e])[0] == s[0];
      Regroup(if s[0].count < -1 then [] else [s[0]], SweepCalls(s[1..]), if e.count < -1 then [] else [e]);
    }
  }

  /** One round: the next entry joins the part already swept, or goes. */
  lemma SweepCallsRound(all: seq<Expected>, done: nat, now: seq<Expected>)
    requires done < |all| && now == SweepCalls(all[..done]) + all[done..]
    ensures var k := |SweepCalls(all[..done])|;
            && k < |now| && now[k] == all[done]
            && (if all[done].count < -1 then now[..k] + now[k + 1..] else now) ==
              SweepCalls(all[..done + 1]) + all[done + 1..]
            && |SweepCalls(all[..done + 1])| == k + if all[done].count < -1 then 0 else 1
  {
    hide SweepCalls;
    SweepCallsAppend(all[..done], all[done]);
    assert all[..done + 1] == all[..done] + [all[done]];
    assert all[done..] == [all[done]] + all[done + 1..];
  }
}
