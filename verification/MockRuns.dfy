// Whole runs of declarations and lookups: which value each lookup gets, which lookups fail, and
// when the end-of-test check finds nothing left.
module MockRuns {
  import opened Sequences
  import opened Wrappers
  import opened Expectations

  // ---- One queue

  datatype QueueOp<+V> = Put(entry: Entry<V>) | Use

  datatype QueueRun<+V> = QueueRun(ok: bool, queue: seq<Entry<V>>, results: seq<V>)

  /** A lookup fails if the queue is empty or if the count it returns is 0; the run then ends. */
  function RunQueue<V>(q: seq<Entry<V>>, ops: seq<QueueOp<V>>): QueueRun<V>
    decreases |ops|
  {
    if ops == [] then QueueRun(true, q, []) else
    match ops[0]
    case Put(e) => RunQueue(q + [e], ops[1..])
    case Use =>
      if q == [] then QueueRun(false, q, [])
      else if q[0].count == 0 then QueueRun(false, Consume(q), [])
      else var r := RunQueue(Consume(q), ops[1..]); r.(results := [q[0].value] + r.results)
  }

  /** Element k of the expansion of a queue: each value count times, a negative one forever. */
  function ExpandAt<V>(q: seq<Entry<V>>, k: nat): Option<V> {
    if q == [] || q[0].count == 0 then None
    else if q[0].count < 0 || k < q[0].count then Some(q[0].value)
    else ExpandAt(q[1..], k - q[0].count)
  }

  function Puts<V>(ops: seq<QueueOp<V>>): seq<Entry<V>> {
    if ops == [] then []
    else (if ops[0].Put? then [ops[0].entry] else []) + Puts(ops[1..])
  }

  function Uses<V>(ops: seq<QueueOp<V>>): nat {
    if ops == [] then 0 else (if ops[0].Use? then 1 else 0) + Uses(ops[1..])
  }

  /** What had been put when lookup number j happened. */
  function PutsBefore<V>(ops: seq<QueueOp<V>>, j: nat): seq<Entry<V>>
    requires j < Uses(ops)
  {
    if ops[0].Put? then [ops[0].entry] + PutsBefore(ops[1..], j)
    else if j == 0 then []
    else PutsBefore(ops[1..], j - 1)
  }

  lemma ExpandConsume<V>(q: seq<Entry<V>>, k: nat)
    requires q != [] && q[0].count != 0
    ensures ExpandAt(q, k + 1) == ExpandAt(Consume(q), k)
    ensures ExpandAt(q, 0) == Some(q[0].value)
  {
  }

  lemma ConsumeAppend<V>(q: seq<Entry<V>>, more: seq<Entry<V>>)
    requires q != []
    ensures Consume(q + more) == Consume(q) + more
  {
  }

  lemma {:induction false} ResultCount<V>(q: seq<Entry<V>>, ops: seq<QueueOp<V>>)
    ensures var r := RunQueue(q, ops);
            if r.ok then |r.results| == Uses(ops) else |r.results| < Uses(ops)
    decreases |ops|
  {
    if ops != [] {
      if ops[0].Put? {
        ResultCount(q + [ops[0].entry], ops[1..]);
      } else if q != [] && q[0].count != 0 {
        ResultCount(Consume(q), ops[1..]);
      }
    }
  }

  /** What lookup number j should get: element j of the expansion of everything put before it. */
  function Due<V>(q: seq<Entry<V>>, ops: seq<QueueOp<V>>, j: nat): Option<V>
    requires j < Uses(ops)
  {
    ExpandAt(q + PutsBefore(ops, j), j)
  }

  /** Each lookup gets what it should; the one that fails is the first one that should get nothing. */
  lemma {:induction false} FifoAt<V>(q: seq<Entry<V>>, ops: seq<QueueOp<V>>, j: nat)
    requires j < Uses(ops)
    ensures var r := RunQueue(q, ops);
            && (j < |r.results| ==> Due(q, ops, j) == Some(r.results[j]))
            && (j == |r.results| ==> Due(q, ops, j) == None)
    decreases |ops|
  {
    hide Due;
    var rest := ops[1..];
    if ops[0].Put? {
      DuePut(q, ops, j);
      FifoAt(q + [ops[0].entry], rest, j);
    } else if j == 0 {
      DueFirst(q, ops);
    } else if q != [] && q[0].count != 0 {
      DueUse(q, ops, j);
      FifoAt(Consume(q), rest, j - 1);
    }
  }

  lemma DuePut<V>(q: seq<Entry<V>>, ops: seq<QueueOp<V>>, j: nat)
    requires j < Uses(ops) && ops[0].Put?
    ensures j < Uses(ops[1..]) && Due(q, ops, j) == Due(q + [ops[0].entry], ops[1..], j)
  {
    Regroup(q, [ops[0].entry], PutsBefore(ops[1..], j));
    hide ExpandAt;
  }

  lemma DueFirst<V>(q: seq<Entry<V>>, ops: seq<QueueOp<V>>)
    requires Uses(ops) > 0 && ops[0].Use?
    ensures Due(q, ops, 0) == if q == [] || q[0].count == 0 then None else Some(q[0].value)
  {
    assert q + PutsBefore(ops, 0) == q;
  }

  lemma DueUse<V>(q: seq<Entry<V>>, ops: seq<QueueOp<V>>, j: nat)
    requires 0 < j < Uses(ops) && ops[0].Use? && q != [] && q[0].count != 0
    ensures j - 1 < Uses(ops[1..]) && Due(q, ops, j) == Due(Consume(q), ops[1..], j - 1)
  {
    var before := PutsBefore(ops[1..], j - 1);
    ConsumeAppend(q, before);
    ExpandConsume(q + before, j - 1);
    hide ExpandAt;
  }

  /** FIFO over a whole run: it succeeds exactly when every lookup has an element of the expansion
      to return, and then the lookups return exactly those. */
  lemma FifoOrder<V>(q: seq<Entry<V>>, ops: seq<QueueOp<V>>)
    ensures RunQueue(q, ops).ok <==> forall j :: 0 <= j < Uses(ops) ==> Due(q, ops, j).Some?
    ensures RunQueue(q, ops).ok ==>
              && |RunQueue(q, ops).results| == Uses(ops)
              && forall j :: 0 <= j < Uses(ops) ==> Due(q, ops, j) == Some(RunQueue(q, ops).results[j])
  {
    hide *;
    ResultCount(q, ops);
    var n := |RunQueue(q, ops).results|;
    if RunQueue(q, ops).ok {
      forall j | 0 <= j < Uses(ops) ensures Due(q, ops, j) == Some(RunQueue(q, ops).results[j]) {
        FifoAt(q, ops, j);
      }
    } else {
      FifoAt(q, ops, n);
    }
  }

  /** The queue after m lookups. */
  function After<V>(q: seq<Entry<V>>, m: nat): seq<Entry<V>>
    decreases m
  {
    if m == 0 || q == [] then q else After(Consume(q), m - 1)
  }

  /** Only what was put and how often it was asked for matters in the end, not the interleaving. */
  lemma OrderForgotten<V>(q: seq<Entry<V>>, ops: seq<QueueOp<V>>)
    requires RunQueue(q, ops).ok
    ensures RunQueue(q, ops).queue == After(q + Puts(ops), Uses(ops))
  {
    OrderForgottenIn(q, ops, q + Puts(ops));
  }

  lemma {:induction false} OrderForgottenIn<V>(q: seq<Entry<V>>, ops: seq<QueueOp<V>>, all: seq<Entry<V>>)
    requires RunQueue(q, ops).ok && all == q + Puts(ops)
    ensures RunQueue(q, ops).queue == After(all, Uses(ops))
    decreases |ops|
  {
    if ops == [] {
      assert all == q;
    } else {
      var rest := ops[1..];
      match ops[0]
      case Put(e) =>
        assert all == (q + [e]) + Puts(rest);
        OrderForgottenIn(q + [e], rest, all);
      case Use =>
        assert Puts(ops) == Puts(rest);
        ConsumeAppend(q, Puts(rest));
        OrderForgottenIn(Consume(q), rest, Consume(all));
    }
  }

  /** If no lookup failed, the expansion of all that was put is long enough. */
  lemma {:induction false} LongEnough<V>(q: seq<Entry<V>>, ops: seq<QueueOp<V>>, j: nat, all: seq<Entry<V>>)
    requires RunQueue(q, ops).ok && j < Uses(ops) && all == q + Puts(ops)
    ensures ExpandAt(all, j).Some?
    decreases |ops|
  {
    var rest := ops[1..];
    match ops[0]
    case Put(e) =>
      assert all == (q + [e]) + Puts(rest);
      LongEnough(q + [e], rest, j, all);
    case Use =>
      assert Puts(ops) == Puts(rest);
      if j > 0 {
        ConsumeAppend(q, Puts(rest));
        LongEnough(Consume(q), rest, j - 1, Consume(all));
        hide RunQueue, Puts, Uses, Consume;
        ExpandConsume(all, j - 1);
      }
  }

  function Sum<V>(q: seq<Entry<V>>): int {
    if q == [] then 0 else q[0].count + Sum(q[1..])
  }

  /** What the documented meaning of the counts asks of m lookups, in terms of the declarations alone. */
  ghost predicate Satisfied<V>(declared: seq<Entry<V>>, m: nat) {
    if declared == [] then m == 0 else
    var n := |declared| - 1;
    && (forall i :: 0 <= i < n ==> declared[i].count > 0)
    && var last, earlier := declared[n].count, Sum(declared[..n]);
       if last > 0 then m == earlier + last
       else if last == 0 then false
       else if last == -1 then m >= earlier + 1
       else m >= earlier
  }

  /** The verdict on one queue: the sweep leaves nothing exactly when the counts were met. */
  lemma {:induction false} QueueVerdict<V>(declared: seq<Entry<V>>, m: nat)
    requires forall j :: 0 <= j < m ==> ExpandAt(declared, j).Some?
    ensures SweepQueue(After(declared, m)) == [] <==> Satisfied(declared, m)
    decreases m
  {
    if m == 0 {
      SatisfiedAtOnce(declared);
    } else {
      assert ExpandAt(declared, 0).Some?;
      forall j | 0 <= j < m - 1 ensures ExpandAt(Consume(declared), j).Some? {
        ExpandConsume(declared, j);
      }
      QueueVerdict(Consume(declared), m - 1);
      SatisfiedStep(declared, m);
    }
  }

  /** An unbounded value that is not the last one declared fails the test, however often it is
      returned: the values behind it are never reached. */
  lemma UnboundedMustBeLast<V>(declared: seq<Entry<V>>, i: nat, m: nat)
    requires i < |declared| - 1 && declared[i].count < 0
    requires forall j :: 0 <= j < m ==> ExpandAt(declared, j).Some?
    ensures SweepQueue(After(declared, m)) != []
  {
    QueueVerdict(declared, m);
  }

  lemma {:induction false} SumPositive<V>(q: seq<Entry<V>>)
    requires forall i :: 0 <= i < |q| ==> q[i].count > 0
    ensures Sum(q) >= |q|
    decreases |q|
  {
    if q != [] { SumPositive(q[1..]); }
  }

  lemma SatisfiedAtOnce<V>(declared: seq<Entry<V>>)
    ensures SweepQueue(declared) == [] <==> Satisfied(declared, 0)
  {
    if |declared| > 0 && forall i :: 0 <= i < |declared| - 1 ==> declared[i].count > 0 {
      SumPositive(declared[..|declared| - 1]);
    }
  }

  lemma SatisfiedStep<V>(declared: seq<Entry<V>>, m: nat)
    requires declared != [] && declared[0].count != 0 && m > 0
    ensures Satisfied(declared, m) <==> Satisfied(Consume(declared), m - 1)
  {
    var c, n := Consume(declared), |declared| - 1;
    if n > 0 {
      assert declared[..n][0] == declared[0] && declared[..n][1..] == declared[1..n];
      if |c| == |declared| {
        assert c[..n][0] == c[0] && c[..n][1..] == declared[1..n];
        assert forall i :: 0 < i <= n ==> c[i] == declared[i];
      } else {
        assert c[..n - 1] == declared[1..n];
        assert forall i :: 0 <= i < n ==> c[i] == declared[i + 1];
        assert (forall i :: 0 <= i < n ==> declared[i].count > 0) <==> (forall i :: 0 <= i < n - 1 ==>
               c[i].count > 0) by {
          if forall i :: 0 <= i < n - 1 ==> c[i].count > 0 {
            forall i | 0 <= i < n ensures declared[i].count > 0 {
              if i > 0 { assert c[i - 1] == declared[i]; }
            }
          }
        }
      }
    }
  }

  // ---- The whole store

  datatype Op<+V> = Declare(path: seq<string>, entry: Entry<V>) | Request(path: seq<string>)

  datatype Run<+V> = Run(ok: bool, store: Store<V>, results: seq<(seq<string>, V)>)

  ghost predicate OpsAtDepth<V>(ops: seq<Op<V>>, depth: nat) {
    forall i :: 0 <= i < |ops| ==> |ops[i].path| == depth
  }

  ghost function RunStore<V>(s: Store<V>, depth: nat, ops: seq<Op<V>>): Run<V>
    requires depth > 0 && WellFormed(s, depth) && OpsAtDepth(ops, depth)
    decreases |ops|
  {
    if ops == [] then Run(true, s, []) else
    match ops[0]
    case Declare(path, e) =>
      AddShape(s, path, e);
      RunStore(Add(s, path, e), depth, ops[1..])
    case Request(path) =>
      GetShape(s, path);
      var g := Get(s, path);
      if g.rc == 0 then Run(false, g.store, [])
      else var r := RunStore(g.store, depth, ops[1..]); r.(results := [(path, g.value.value)] + r.results)
  }

  /** A run that starts with a declaration. */
  lemma RunDeclare<V>(s: Store<V>, depth: nat, path: seq<string>, e: Entry<V>, rest: seq<Op<V>>)
    requires depth > 0 && WellFormed(s, depth) && |path| == depth && OpsAtDepth(rest, depth)
    ensures OpsAtDepth([Declare(path, e)] + rest, depth) && WellFormed(Add(s, path, e), depth)
    ensures RunStore(s, depth, [Declare(path, e)] + rest) == RunStore(Add(s, path, e), depth, rest)
  {
    AddShape(s, path, e);
    var ops := [Declare(path, e)] + rest;
    assert ops[1..] == rest;
  }

  /** A run that starts with a lookup. */
  lemma RunRequest<V>(s: Store<V>, depth: nat, path: seq<string>, g: Got<V>, rest: seq<Op<V>>)
    requires depth > 0 && WellFormed(s, depth) && |path| == depth && OpsAtDepth(rest, depth) && g == Get(s, path)
    ensures OpsAtDepth([Request(path)] + rest, depth) && WellFormed(g.store, depth) && (g.rc != 0 ==> g.value.Some?)
    ensures RunStore(s, depth, [Request(path)] + rest) ==
            if g.rc == 0 then Run(false, g.store, [])
            else var r := RunStore(g.store, depth, rest); r.(results := [(path, g.value.value)] + r.results)
  {
    GetShape(s, path);
    var ops := [Request(path)] + rest;
    assert ops[1..] == rest;
  }

  /** The part of a run that concerns one path. */
  function Project<V>(ops: seq<Op<V>>, path: seq<string>): seq<QueueOp<V>> {
    if ops == [] then [] else
    (if ops[0].path != path then [] else if ops[0].Declare? then [Put(ops[0].entry)] else [Use])
    + Project(ops[1..], path)
  }

  function ProjectResults<V>(results: seq<(seq<string>, V)>, path: seq<string>): seq<V> {
    if results == [] then [] else
    (if results[0].0 == path then [results[0].1] else []) + ProjectResults(results[1..], path)
  }

  /** Paths are independent: each queue sees only the operations on its own path. */
  lemma {:induction false} Independent<V>(s: Store<V>, depth: nat, ops: seq<Op<V>>, path: seq<string>)
    requires depth > 0 && WellFormed(s, depth) && OpsAtDepth(ops, depth) && |path| == depth
    requires RunStore(s, depth, ops).ok
    ensures var r := RunStore(s, depth, ops);
            && WellFormed(r.store, depth)
            && RunQueue(Lookup(s, path), Project(ops, path)) ==
               QueueRun(true, Lookup(r.store, path), ProjectResults(r.results, path))
    decreases |ops|
  {
    if ops != [] {
      var rest, p := ops[1..], ops[0].path;
      ProjectNext(ops, path);
      match ops[0]
      case Declare(_, e) =>
        AddShape(s, p, e);
        AddMeaning(s, p, e, path);
        Independent(Add(s, p, e), depth, rest, path);
        hide Project, ProjectResults, Add, WellFormed, Lookup;
      case Request(_) =>
        GetShape(s, p);
        GetMeaning(s, p, path);
        var g := Get(s, p);
        Independent(g.store, depth, rest, path);
        ResultsNext(p, g.value.value, RunStore(g.store, depth, rest).results, path);
        hide Project, ProjectResults, Get, WellFormed, Lookup;
    }
  }

  lemma ProjectNext<V>(ops: seq<Op<V>>, path: seq<string>)
    requires ops != []
    ensures ops[0].path != path ==> Project(ops, path) == Project(ops[1..], path)
    ensures ops[0].path == path ==>
              && Project(ops, path) != [] && Project(ops, path)[1..] == Project(ops[1..], path)
              && Project(ops, path)[0] == if ops[0].Declare? then Put(ops[0].entry) else Use
  {
  }

  lemma ResultsNext<V>(p: seq<string>, value: V, results: seq<(seq<string>, V)>, path: seq<string>)
    ensures ProjectResults([(p, value)] + results, path) ==
            (if p == path then [value] else []) + ProjectResults(results, path)
  {
    assert ([(p, value)] + results)[1..] == results;
  }

  /** A run fails exactly when the projection to some path fails. */
  lemma {:induction false} FailsOnSomePath<V>(s: Store<V>, depth: nat, ops: seq<Op<V>>) returns (path: seq<string>)
    requires depth > 0 && WellFormed(s, depth) && OpsAtDepth(ops, depth)
    requires !RunStore(s, depth, ops).ok
    ensures |path| == depth && !RunQueue(Lookup(s, path), Project(ops, path)).ok
    decreases |ops|
  {
    var rest, p := ops[1..], ops[0].path;
    match ops[0]
    case Declare(_, e) =>
      AddShape(s, p, e);
      path := FailsOnSomePath(Add(s, p, e), depth, rest);
      AddMeaning(s, p, e, path);
      ProjectNext(ops, path);
    case Request(_) =>
      GetShape(s, p);
      var g := Get(s, p);
      if g.rc == 0 {
        path := p;
        ProjectNext(ops, path);
      } else {
        path := FailsOnSomePath(g.store, depth, rest);
        GetMeaning(s, p, path);
        ProjectNext(ops, path);
      }
  }

  lemma RunSucceedsIff<V>(s: Store<V>, depth: nat, ops: seq<Op<V>>)
    requires depth > 0 && WellFormed(s, depth) && OpsAtDepth(ops, depth)
    ensures RunStore(s, depth, ops).ok <==>
            forall p: seq<string> :: |p| == depth ==> RunQueue(Lookup(s, p), Project(ops, p)).ok
  {
    if RunStore(s, depth, ops).ok {
      forall p: seq<string> | |p| == depth ensures RunQueue(Lookup(s, p), Project(ops, p)).ok {
        Independent(s, depth, ops, p);
      }
    } else {
      var p := FailsOnSomePath(s, depth, ops);
    }
  }

  /** FIFO over a run of the whole store: all lookups succeed exactly when, for every path, each lookup
      has an element of the expansion of what was declared for its path before it; and then lookup j
      for a path returns element j. */
  lemma StoreFifo<V>(depth: nat, ops: seq<Op<V>>)
    requires depth > 0 && OpsAtDepth(ops, depth)
    ensures RunStore(EmptyStore(depth), depth, ops).ok <==>
            forall p: seq<string> :: |p| == depth ==> AllDue(Project(ops, p))
    ensures RunStore(EmptyStore(depth), depth, ops).ok ==>
              forall p: seq<string> :: |p| == depth ==>
                GetsDue(Project(ops, p), ProjectResults(RunStore(EmptyStore(depth), depth, ops).results, p))
  {
    hide *;
    var s := EmptyStore(depth);
    RunSucceedsIff(s, depth, ops);
    forall p: seq<string> | |p| == depth
      ensures RunQueue(Lookup(s, p), Project(ops, p)).ok <==> AllDue(Project(ops, p))
      ensures RunStore(s, depth, ops).ok ==>
                GetsDue(Project(ops, p), ProjectResults(RunStore(s, depth, ops).results, p))
    {
      LookupEmpty<V>(p);
      QueueFifo(Project(ops, p));
      if RunStore(s, depth, ops).ok {
        Independent(s, depth, ops, p);
      }
    }
  }

  /** Every lookup in ops has something to return. */
  ghost predicate AllDue<V>(ops: seq<QueueOp<V>>) {
    forall j :: 0 <= j < Uses(ops) ==> Due([], ops, j).Some?
  }

  ghost predicate GetsDue<V>(ops: seq<QueueOp<V>>, results: seq<V>) {
    |results| == Uses(ops) && forall j :: 0 <= j < Uses(ops) ==> Due([], ops, j) == Some(results[j])
  }

  lemma QueueFifo<V>(ops: seq<QueueOp<V>>)
    ensures RunQueue([], ops).ok <==> AllDue(ops)
    ensures RunQueue([], ops).ok ==> GetsDue(ops, RunQueue([], ops).results)
  {
    hide Due, RunQueue, Uses;
    FifoOrder([], ops);
  }

  /** The whole-run verdict: after a run in which every lookup succeeded, the leftover check passes
      exactly when, for every path, the counts declared for it were met by the number of lookups. */
  lemma WholeRunVerdict<V>(depth: nat, ops: seq<Op<V>>)
    requires depth > 0 && OpsAtDepth(ops, depth)
    requires RunStore(EmptyStore(depth), depth, ops).ok
    ensures var s := RunStore(EmptyStore(depth), depth, ops).store;
            && WellFormed(Sweep(s), depth)
            && (Leftovers(Sweep(s)) == 0 <==>
                forall p: seq<string> :: |p| == depth ==> Satisfied(Puts(Project(ops, p)), Uses(Project(ops, p))))
  {
    var s := RunStore(EmptyStore(depth), depth, ops).store;
    forall p: seq<string> | |p| == depth
      ensures WellFormed(Sweep(s), depth)
      ensures Lookup(Sweep(s), p) == [] <==> Satisfied(Puts(Project(ops, p)), Uses(Project(ops, p)))
    {
      Independent(EmptyStore(depth), depth, ops, p);
      SweepMeaning(s, p);
      LookupEmpty<V>(p);
      var q := Project(ops, p);
      OrderForgotten([], q);
      forall j | 0 <= j < Uses(q) ensures ExpandAt([] + Puts(q), j).Some? {
        LongEnough([], q, j, [] + Puts(q));
      }
      assert [] + Puts(q) == Puts(q);
      QueueVerdict(Puts(q), Uses(q));
    }
    var some := seq(depth, _ => "");
    assert |some| == depth;
    LeftoversMeaning(Sweep(s), depth);
  }
}
