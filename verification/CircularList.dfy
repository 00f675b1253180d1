// The intrusive circular doubly linked list, on node objects. (SymbolTree has the same operations on
// addresses, as the expectation store uses them.)
module CircularList {
  import opened Sequences

  class ListNode<T> {
    var value: T
    var refcount: int
    var next: ListNode<T>
    var prev: ListNode<T>

    constructor (value: T, refcount: int)
      ensures this.value == value && this.refcount == refcount
      ensures next == this && prev == this
    {
      this.value := value;
      this.refcount := refcount;
      next := this;
      prev := this;
    }
  }

  /** The node at position i of the ring; the head stands before the first and after the last. */
  ghost function At<T>(head: ListNode<T>, ns: seq<ListNode<T>>, i: int): ListNode<T> {
    if 0 <= i < |ns| then ns[i] else head
  }

  /** head is the head of a circular list holding exactly the nodes ns, in order: next walks
      forward and prev is its inverse. */
  ghost predicate IsList<T>(head: ListNode<T>, ns: seq<ListNode<T>>)
    reads head, ns
  {
    && head !in ns
    && Distinct(ns)
    && head.next == At(head, ns, 0)
    && head.prev == At(head, ns, |ns| - 1)
    && (forall i {:trigger ns[i].next} {:trigger ns[i].prev} :: 0 <= i < |ns| ==>
          && ns[i].next == At(head, ns, i + 1)
          && ns[i].prev == At(head, ns, i - 1))
  }

  // ---- Which nodes are allocated: a node may be read, written and freed only while it is in live.
  // Every member below that gets at the fields of a node requires that.

  function Next<T>(node: ListNode<T>, ghost live: set<ListNode<T>>): ListNode<T>
    requires node in live
    reads node
  {
    node.next
  }

  function Prev<T>(node: ListNode<T>, ghost live: set<ListNode<T>>): ListNode<T>
    requires node in live
    reads node
  {
    node.prev
  }

  function Value<T>(node: ListNode<T>, ghost live: set<ListNode<T>>): T
    requires node in live
    reads node
  {
    node.value
  }

  function Count<T>(node: ListNode<T>, ghost live: set<ListNode<T>>): int
    requires node in live
    reads node
  {
    node.refcount
  }

  method SetNext<T>(node: ListNode<T>, next: ListNode<T>, ghost live: set<ListNode<T>>)
    requires node in live
    modifies node`next
    ensures node.next == next
  {
    node.next := next;
  }

  method SetPrev<T>(node: ListNode<T>, prev: ListNode<T>, ghost live: set<ListNode<T>>)
    requires node in live
    modifies node`prev
    ensures node.prev == prev
  {
    node.prev := prev;
  }

  method Free<T>(node: ListNode<T>, ghost live: set<ListNode<T>>) returns (ghost live': set<ListNode<T>>)
    requires node in live
    ensures live' == live - {node}
  {
    live' := live - {node};
  }

  ghost function NodesOf<T>(ns: seq<ListNode<T>>): set<ListNode<T>> {
    set x | x in ns
  }

  ghost predicate AllLive<T>(head: ListNode<T>, ns: seq<ListNode<T>>, live: set<ListNode<T>>) {
    head in live && forall x :: x in ns ==> x in live
  }

  method ListInitialize<T>(node: ListNode<T>, nothing: T, ghost live: set<ListNode<T>>)
    requires node in live
    modifies node
    ensures node.value == nothing && node.refcount == 1
    ensures IsList(node, [])
  {
    node.value := nothing;
    SetNext(node, node, live);
    SetPrev(node, node, live);
    node.refcount := 1;
  }

  /** Appends newNode at the tail. */
  method ListAdd<T>(head: ListNode<T>, newNode: ListNode<T>, ghost ns: seq<ListNode<T>>,
                    ghost live: set<ListNode<T>>)
    requires IsList(head, ns) && AllLive(head, ns, live)
    requires newNode != head && newNode !in ns && newNode in live
    modifies head`next, head`prev, ns`next, ns`prev, newNode`next, newNode`prev
    ensures IsList(head, ns + [newNode]) && AllLive(head, ns + [newNode], live)
  {
    ghost var ms := ns + [newNode];
    assert forall i :: 0 <= i < |ns| ==> ms[i] == ns[i];
    SetNext(newNode, head, live);
    SetPrev(newNode, Prev(head, live), live);
    SetNext(Prev(head, live), newNode, live);
    SetPrev(head, newNode, live);
  }

  /** Unlinks the k-th node, wherever it sits. */
  method ListRemove<T>(node: ListNode<T>, ghost head: ListNode<T>, ghost ns: seq<ListNode<T>>, ghost k: nat,
                       ghost live: set<ListNode<T>>)
    requires IsList(head, ns) && AllLive(head, ns, live)
    requires k < |ns| && node == ns[k]
    modifies head`next, head`prev, ns`next, ns`prev
    ensures IsList(head, Without(ns, k))
  {
    SetNext(Prev(node, live), Next(node, live), live);
    SetPrev(Next(node, live), Prev(node, live), live);
    UnlinkedIsList(head, ns, k);
  }

  /** The k-th node has been unlinked: its neighbours link to each other. */
  ghost predicate Unlinked<T>(head: ListNode<T>, ns: seq<ListNode<T>>, k: nat)
    reads head, ns
  {
    && head !in ns && Distinct(ns) && k < |ns|
    && head.next == At(head, ns, if k == 0 then 1 else 0)
    && head.prev == At(head, ns, if k == |ns| - 1 then k - 1 else |ns| - 1)
    && (forall i {:trigger ns[i].next} {:trigger ns[i].prev} :: 0 <= i < |ns| && i != k ==>
          && ns[i].next == At(head, ns, if i + 1 == k then k + 1 else i + 1)
          && ns[i].prev == At(head, ns, if i - 1 == k then k - 1 else i - 1))
  }

  lemma UnlinkedIsList<T>(head: ListNode<T>, ns: seq<ListNode<T>>, k: nat)
    requires Unlinked(head, ns, k)
    ensures IsList(head, Without(ns, k))
  {
    var ms := Without(ns, k);
    WithoutDistinct(ns, k, ms);
    UnlinkedHead(head, ns, k, ms);
    hide Without, Distinct, At, Unlinked;
    forall j | 0 <= j < |ms|
      ensures ms[j].next == At(head, ms, j + 1) && ms[j].prev == At(head, ms, j - 1)
    {
      UnlinkedAt(head, ns, k, ms, j);
    }
  }

  lemma UnlinkedHead<T>(head: ListNode<T>, ns: seq<ListNode<T>>, k: nat, ms: seq<ListNode<T>>)
    requires Unlinked(head, ns, k) && ms == Without(ns, k)
    ensures head !in ns && head.next == At(head, ms, 0) && head.prev == At(head, ms, |ms| - 1)
  {
  }

  lemma UnlinkedAt<T>(head: ListNode<T>, ns: seq<ListNode<T>>, k: nat, ms: seq<ListNode<T>>, j: nat)
    requires Unlinked(head, ns, k) && j < |ms| == |ns| - 1
    requires forall i :: 0 <= i < |ms| ==> ms[i] == ns[if i < k then i else i + 1]
    ensures ms[j].next == At(head, ms, j + 1) && ms[j].prev == At(head, ms, j - 1)
  {
    AtWithout(head, ns, k, ms);
    hide At, Distinct;
    var i := if j < k then j else j + 1;
    assert ms[j] == ns[i];
    assert ns[i].next == At(head, ns, if i + 1 == k then k + 1 else i + 1);
    assert ns[i].prev == At(head, ns, if i - 1 == k then k - 1 else i - 1);
  }

  lemma AtWithout<T>(head: ListNode<T>, ns: seq<ListNode<T>>, k: nat, ms: seq<ListNode<T>>)
    requires k < |ns| && |ms| == |ns| - 1 && forall i :: 0 <= i < |ms| ==> ms[i] == ns[if i < k then i else i + 1]
    ensures forall j {:trigger At(head, ms, j)} :: -1 <= j <= |ms| ==>
              At(head, ms, j) == At(head, ns, if j < k then j else j + 1)
  {
  }

  lemma WithoutDistinct<A>(s: seq<A>, k: nat, r: seq<A>)
    requires Distinct(s) && k < |s| && r == Without(s, k)
    ensures |r| == |s| - 1 && Distinct(r) && forall i :: 0 <= i < |r| ==> r[i] == s[if i < k then i else i + 1]
    ensures forall x :: x in r ==> x in s
  {
    assert forall i :: 0 <= i < |r| ==> r[i] == s[if i < k then i else i + 1];
    RestDistinct(s, k, r);
  }

  method ListEmpty<T>(head: ListNode<T>, ghost ns: seq<ListNode<T>>, ghost live: set<ListNode<T>>)
    returns (empty: bool)
    requires IsList(head, ns) && AllLive(head, ns, live)
    ensures empty <==> ns == []
  {
    empty := Next(head, live) == head;
  }

  /** The first node of the list, if there is one. */
  method ListFirst<T>(head: ListNode<T>, ghost ns: seq<ListNode<T>>, ghost live: set<ListNode<T>>)
    returns (found: bool, output: ListNode<T>)
    requires IsList(head, ns) && AllLive(head, ns, live)
    ensures found <==> ns != []
    ensures found ==> output == ns[0]
  {
    var empty := ListEmpty(head, ns, live);
    found, output := !empty, Next(head, live);
  }

  /** The first node whose value matches. */
  method ListFind<T>(head: ListNode<T>, matches: T -> bool, ghost ns: seq<ListNode<T>>, ghost live: set<ListNode<T>>)
    returns (found: bool, output: ListNode<T>, ghost k: nat)
    requires IsList(head, ns) && AllLive(head, ns, live)
    ensures found ==> k < |ns| && output == ns[k] && matches(ns[k].value)
    ensures found ==> forall i :: 0 <= i < k ==> !matches(ns[i].value)
    ensures !found ==> forall i :: 0 <= i < |ns| ==> !matches(ns[i].value)
  {
    found, output, k := false, Next(head, live), 0;
    while output != head
      invariant 0 <= k <= |ns| && output == At(head, ns, k)
      invariant forall i :: 0 <= i < k ==> !matches(ns[i].value)
      decreases |ns| - k
    {
      if matches(Value(output, live)) {
        found := true;
        return;
      }
      output := Next(output, live);
      k := k + 1;
    }
  }

  /** list_add_value: a new node at the tail. */
  method ListAddValue<T>(head: ListNode<T>, value: T, refcount: int, ghost ns: seq<ListNode<T>>,
                         ghost live: set<ListNode<T>>)
    returns (node: ListNode<T>, ghost live': set<ListNode<T>>)
    requires IsList(head, ns) && AllLive(head, ns, live)
    modifies head`next, head`prev, ns`next, ns`prev
    ensures fresh(node) && node.value == value && node.refcount == refcount
    ensures IsList(head, ns + [node]) && live' == live + {node} && AllLive(head, ns + [node], live')
  {
    node := new ListNode(value, refcount);
    live' := live + {node};
    ListAdd(head, node, ns, live');
  }

  /** list_remove_free, as far as the list goes: the node is unlinked and freed. */
  method ListRemoveFree<T>(node: ListNode<T>, ghost head: ListNode<T>, ghost ns: seq<ListNode<T>>, ghost k: nat,
                           ghost live: set<ListNode<T>>)
    returns (ghost live': set<ListNode<T>>)
    requires IsList(head, ns) && k < |ns| && node == ns[k] && AllLive(head, ns, live)
    modifies head`next, head`prev, ns`next, ns`prev
    ensures IsList(head, Without(ns, k)) && live' == live - {node} && AllLive(head, Without(ns, k), live')
  {
    ListRemove(node, head, ns, k, live);
    live' := Free(node, live);
  }

  /** The nodes before position d have been freed. */
  ghost predicate FreedTo<T>(head: ListNode<T>, ns: seq<ListNode<T>>, d: nat, live: set<ListNode<T>>,
                             live': set<ListNode<T>>)
    reads head, ns
  {
    && d <= |ns| && IsList(head, ns[d..]) && AllLive(head, ns[d..], live')
    && live' == live - NodesOf(ns[..d])
  }

  method FreeFirst<T>(head: ListNode<T>, ghost ns: seq<ListNode<T>>, ghost d: nat, ghost live: set<ListNode<T>>,
                      ghost live0: set<ListNode<T>>)
    returns (ghost live': set<ListNode<T>>)
    requires FreedTo(head, ns, d, live, live0) && head.next != head
    modifies head`next, head`prev, ns`next, ns`prev
    ensures d < |ns| && FreedTo(head, ns, d + 1, live, live')
  {
    hide NodesOf, Without, AllLive;
    ListFront(head, ns, d, live0);
    NodesNext(ns, d);
    var node := Next(head, live0);
    hide IsList;
    live' := ListRemoveFree(node, head, ns[d..], 0, live0);
  }

  /** list_free, as far as the list goes: exactly its nodes are freed, each of them once. */
  method ListFree<T>(head: ListNode<T>, ghost ns: seq<ListNode<T>>, ghost live: set<ListNode<T>>)
    returns (ghost live': set<ListNode<T>>)
    requires IsList(head, ns) && AllLive(head, ns, live)
    modifies head`next, head`prev, ns`next, ns`prev
    ensures IsList(head, []) && live' == live - NodesOf(ns)
  {
    NodesNext(ns, 0);
    ghost var d := 0;
    live' := live;
    assert FreedTo(head, ns, 0, live, live);
    hide *;
    while Next(head, live') != head
      invariant FreedTo(head, ns, d, live, live') && head in live'
      decreases |ns| - d
    {
      live' := FreeFirst(head, ns, d, live, live');
      d := d + 1;
      HeadLive(head, ns, d, live, live');
    }
    FreedAll(head, ns, d, live, live');
  }

  lemma HeadLive<T>(head: ListNode<T>, ns: seq<ListNode<T>>, d: nat, live: set<ListNode<T>>, live': set<ListNode<T>>)
    requires FreedTo(head, ns, d, live, live')
    ensures head in live'
  {
  }

  lemma FreedAll<T>(head: ListNode<T>, ns: seq<ListNode<T>>, d: nat, live: set<ListNode<T>>, live': set<ListNode<T>>)
    requires FreedTo(head, ns, d, live, live') && Next(head, live') == head
    ensures IsList(head, []) && live' == live - NodesOf(ns)
  {
    ListFront(head, ns, d, live');
    assert ns[|ns|..] == [] && ns[..|ns|] == ns;
  }

  lemma NodesNext<T>(ns: seq<ListNode<T>>, d: nat)
    requires d <= |ns|
    ensures NodesOf(ns[..0]) == {} && ns[0..] == ns
    ensures d < |ns| ==> NodesOf(ns[..d + 1]) == NodesOf(ns[..d]) + {ns[d]} && Without(ns[d..], 0) == ns[d + 1..]
  {
    assert d < |ns| ==> ns[..d + 1] == ns[..d] + [ns[d]];
  }

  lemma ListFront<T>(head: ListNode<T>, ns: seq<ListNode<T>>, d: nat, live: set<ListNode<T>>)
    requires d <= |ns| && IsList(head, ns[d..]) && AllLive(head, ns[d..], live)
    ensures head.next == (if d < |ns| then ns[d] else head) && (head.next == head <==> d == |ns|) && head in live
  {
  }

  /** The nodes that are not in gone, in order. */
  ghost function Kept<T>(ns: seq<ListNode<T>>, gone: set<ListNode<T>>): (r: seq<ListNode<T>>)
    ensures |r| <= |ns| && (forall x :: x in r ==> x in ns && x !in gone)
    ensures forall i :: 0 <= i < |ns| ==> (ns[i] in r <==> ns[i] !in gone)
  {
    if ns == [] then [] else
    var n := |ns| - 1;
    assert ns == ns[..n] + [ns[n]];
    Kept(ns[..n], gone) + if ns[n] in gone then [] else [ns[n]]
  }

  /** The list when the nodes before position d have been looked at. */
  ghost function Passed<T>(ns: seq<ListNode<T>>, gone: set<ListNode<T>>, d: nat): (r: seq<ListNode<T>>)
    requires d <= |ns|
    ensures forall i :: 0 <= i < |r| ==> r[i] in ns
  {
    var kept := Kept(ns[..d], gone);
    assert forall i :: 0 <= i < |kept| ==> kept[i] in kept;
    kept + ns[d..]
  }

  lemma PassedStep<T>(ns: seq<ListNode<T>>, gone: set<ListNode<T>>, d: nat)
    requires d < |ns|
    ensures var k, ms := |Kept(ns[..d], gone)|, Passed(ns, gone, d);
            && k < |ms| && ms[k] == ns[d] && (d + 1 < |ns| <==> k + 1 < |ms|) && (d + 1 < |ns| ==>
              ms[k + 1] == ns[d + 1])
            && Passed(ns, gone, d + 1) == if ns[d] in gone then Without(ms, k) else ms
  {
    KeptNext(ns, gone, d);
    assert ns[d..] == [ns[d]] + ns[d + 1..];
    hide Kept;
    Seam(Kept(ns[..d], gone), ns[d], ns[d + 1..]);
  }

  lemma KeptNext<T>(ns: seq<ListNode<T>>, gone: set<ListNode<T>>, d: nat)
    requires d < |ns|
    ensures Kept(ns[..d + 1], gone) == Kept(ns[..d], gone) + if ns[d] in gone then [] else [ns[d]]
  {
    assert ns[..d + 1][..d] == ns[..d] && ns[..d + 1][d] == ns[d];
  }

  lemma Seam<A>(a: seq<A>, x: A, b: seq<A>)
    ensures Without(a + ([x] + b), |a|) == (a + []) + b && a + ([x] + b) == (a + [x]) + b
  {
    var s := a + ([x] + b);
    assert s[..|a|] == a && s[|a| + 1..] == b;
  }

  lemma PassedEnds<T>(ns: seq<ListNode<T>>, gone: set<ListNode<T>>)
    ensures Passed(ns, gone, 0) == ns && Passed(ns, gone, |ns|) == Kept(ns, gone)
  {
    assert ns[..|ns|] == ns && ns[..0] == [];
  }

  /** gone holds the nodes that may be skipped. */
  ghost predicate Marked<T>(ns: seq<ListNode<T>>, gone: set<ListNode<T>>)
    reads ns`refcount
  {
    && (forall i :: 0 <= i < |ns| ==> (ns[i] in gone <==> ns[i].refcount < -1))
    && (forall x :: x in gone ==> x in ns)
  }

  /** The nodes that are freed when those before position d have been looked at. */
  ghost function Dropped<T>(ns: seq<ListNode<T>>, gone: set<ListNode<T>>, d: nat): set<ListNode<T>>
    requires d <= |ns|
  {
    set x | x in gone && x in ns[..d]
  }

  lemma DroppedNext<T>(ns: seq<ListNode<T>>, gone: set<ListNode<T>>, d: nat)
    requires d < |ns| && Distinct(ns)
    ensures Dropped(ns, gone, d + 1) == Dropped(ns, gone, d) + if ns[d] in gone then {ns[d]} else {}
    ensures ns[d] !in Dropped(ns, gone, d)
  {
    assert ns[..d + 1] == ns[..d] + [ns[d]];
  }

  lemma DroppedAll<T>(ns: seq<ListNode<T>>, gone: set<ListNode<T>>)
    requires forall x :: x in gone ==> x in ns
    ensures Dropped(ns, gone, 0) == {} && Dropped(ns, gone, |ns|) == gone
  {
    assert ns[..|ns|] == ns;
  }

  /** What is still in the list has not been freed. */
  lemma PassedLive<T>(head: ListNode<T>, ns: seq<ListNode<T>>, gone: set<ListNode<T>>, d: nat, live: set<ListNode<T>>)
    requires d <= |ns| && Distinct(ns) && head !in ns && AllLive(head, ns, live)
    ensures AllLive(head, Passed(ns, gone, d), live - Dropped(ns, gone, d))
  {
    forall x | x in ns[d..] ensures x !in ns[..d] {
    }
  }

  /** One round of the pass: the node is unlinked and freed if it goes. */
  method Pass<T>(current: ListNode<T>, ghost head: ListNode<T>, ghost ns: seq<ListNode<T>>,
                 ghost gone: set<ListNode<T>>, ghost d: nat, ghost live: set<ListNode<T>>)
    returns (ghost live': set<ListNode<T>>)
    requires d < |ns| && current == ns[d] && IsList(head, Passed(ns, gone, d))
    requires Marked(ns, gone) && AllLive(head, Passed(ns, gone, d), live)
    modifies head`next, head`prev, ns`next, ns`prev
    ensures Marked(ns, gone) && IsList(head, Passed(ns, gone, d + 1))
    ensures live' == if current in gone then live - {current} else live
  {
    hide *;
    PassedStep(ns, gone, d);
    MarkedAt(head, ns, gone, d, live);
    ghost var ms := Passed(ns, gone, d);
    live' := live;
    if Count(current, live) < -1 {
      live' := ListRemoveFree(current, head, ms, |Kept(ns[..d], gone)|, live);
    }
  }

  lemma MarkedAt<T>(head: ListNode<T>, ns: seq<ListNode<T>>, gone: set<ListNode<T>>, d: nat, live: set<ListNode<T>>)
    requires d < |ns| && Marked(ns, gone) && AllLive(head, Passed(ns, gone, d), live)
    ensures ns[d] in live && (ns[d] in gone <==> Count(ns[d], live) < -1)
    ensures forall x :: x in Passed(ns, gone, d) ==> x in ns
  {
    PassedStep(ns, gone, d);
    assert ns[d] in Passed(ns, gone, d);
  }

  /** The node at position d is in the list when the walk gets there, and its successor is the next one. */
  lemma Successor<T>(head: ListNode<T>, ns: seq<ListNode<T>>, gone: set<ListNode<T>>, d: nat)
    requires d < |ns| && IsList(head, Passed(ns, gone, d))
    ensures ns[d] in Passed(ns, gone, d) && ns[d].next == At(head, ns, d + 1)
  {
    PassedStep(ns, gone, d);
    hide Kept, Passed;
    var k := |Kept(ns[..d], gone)|;
    assert Passed(ns, gone, d)[k].next == At(head, Passed(ns, gone, d), k + 1);
  }

  /** The walk has come to position d, and current is the node there, or the head. */
  ghost predicate WalkedTo<T>(head: ListNode<T>, ns: seq<ListNode<T>>, gone: set<ListNode<T>>, d: nat,
                              current: ListNode<T>, live: set<ListNode<T>>, live': set<ListNode<T>>)
    reads head, ns
  {
    && d <= |ns| && current == At(head, ns, d) && head !in ns && Distinct(ns) && AllLive(head, ns, live)
    && IsList(head, Passed(ns, gone, d)) && Marked(ns, gone)
    && live' == live - Dropped(ns, gone, d)
  }

  /** One round of the walk. */
  method Walk<T>(current: ListNode<T>, ghost head: ListNode<T>, ghost ns: seq<ListNode<T>>,
                 ghost gone: set<ListNode<T>>, ghost d: nat,
                 ghost live: set<ListNode<T>>, ghost live0: set<ListNode<T>>)
    returns (next: ListNode<T>, ghost live': set<ListNode<T>>)
    requires WalkedTo(head, ns, gone, d, current, live, live0) && current != head
    modifies head`next, head`prev, ns`next, ns`prev
    ensures d < |ns| && WalkedTo(head, ns, gone, d + 1, next, live, live')
  {
    hide IsList, Passed, Kept, Marked, AllLive, Dropped, Distinct;
    PassedLive(head, ns, gone, d, live);
    Successor(head, ns, gone, d);
    IsLive(head, Passed(ns, gone, d), live0, current);
    next := Next(current, live0);
    DroppedNext(ns, gone, d);
    live' := Pass(current, head, ns, gone, d, live0);
  }

  /** remove_always_return_values_from_list: one walk along next, which is saved before a node is
      freed, takes out exactly the nodes that may be skipped and keeps the order of the others. Exactly
      those nodes are freed, each once, and none is read after that. */
  method RemoveAlways<T>(head: ListNode<T>, ghost ns: seq<ListNode<T>>, ghost gone: set<ListNode<T>>,
                         ghost live: set<ListNode<T>>)
    returns (ghost live': set<ListNode<T>>)
    requires IsList(head, ns) && Marked(ns, gone) && AllLive(head, ns, live)
    modifies head`next, head`prev, ns`next, ns`prev
    ensures IsList(head, Kept(ns, gone)) && live' == live - gone
    ensures forall i :: 0 <= i < |ns| ==> (ns[i] in Kept(ns, gone) <==> ns[i].refcount >= -1)
  {
    ghost var d := 0;
    var current := Next(head, live);
    live' := live;
    WalkStarts(head, ns, gone, live);
    hide *;
    while current != head
      invariant WalkedTo(head, ns, gone, d, current, live, live')
      decreases |ns| - d
    {
      current, live' := Walk(current, head, ns, gone, d, live, live');
      d := d + 1;
    }
    WalkEnds(head, ns, gone, d, live, live');
  }

  lemma WalkStarts<T>(head: ListNode<T>, ns: seq<ListNode<T>>, gone: set<ListNode<T>>, live: set<ListNode<T>>)
    requires IsList(head, ns) && Marked(ns, gone) && AllLive(head, ns, live)
    ensures WalkedTo(head, ns, gone, 0, head.next, live, live)
  {
    PassedEnds(ns, gone);
    DroppedAll(ns, gone);
  }

  lemma WalkEnds<T>(head: ListNode<T>, ns: seq<ListNode<T>>, gone: set<ListNode<T>>, d: nat, live: set<ListNode<T>>,
                    live': set<ListNode<T>>)
    requires WalkedTo(head, ns, gone, d, head, live, live')
    ensures IsList(head, Kept(ns, gone)) && live' == live - gone
  {
    assert d == |ns|;
    PassedEnds(ns, gone);
    DroppedAll(ns, gone);
  }

  lemma IsLive<T>(head: ListNode<T>, ns: seq<ListNode<T>>, live: set<ListNode<T>>, x: ListNode<T>)
    requires AllLive(head, ns, live) && x in ns
    ensures x in live
  {
  }
}
