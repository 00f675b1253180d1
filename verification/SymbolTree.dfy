// The symbol tree in C memory: the nodes of the linked lists (cells), map values and records, by their
// addresses. An access to one of these maps is an access to allocated memory, so Dafny checks that
// nothing is read, written or freed after it was freed. What the lists hold is a ghost view of them
// as sequences (Memory); the code only follows next and prev.
module SymbolTree {
  import opened Expectations
  import opened Sequences

  type Ptr = nat

  /** A list node, with its address, as the view shows it. */
  datatype ListNode = ListNode(node: Ptr, value: Ptr, refcount: int)

  /** lists: the nodes of each list, by the address of its head; nodes: the list nodes that are
      allocated; symbols: the name in each SymbolMapValue, whose embedded head has the same address;
      records: what each SymbolValue, CheckParameterEvent or FuncOrderingValue holds. */
  datatype Memory = Memory(
    lists: map<Ptr, seq<ListNode>>,
    nodes: set<Ptr>,
    symbols: map<Ptr, string>,
    records: map<Ptr, Datum>)

  /** For the proofs: the names on the way to each list, the list each address is stored in, the list
      each node is linked in, and the addresses that were freed while a list still stores them. */
  datatype Labels = Labels(path: map<Ptr, seq<string>>, home: map<Ptr, Ptr>, holder: map<Ptr, Ptr>, freed: set<Ptr>)

  predicate Contains(nodes: seq<ListNode>, v: Ptr) {
    exists i :: 0 <= i < |nodes| && nodes[i].value == v
  }

  // ---- One tree

  /** The list at hd and the lists below it form a tree of the given depth. */
  ghost predicate Tree(m: Memory, at: Labels, hd: Ptr, depth: nat)
    decreases depth, 1
  {
    && hd in m.lists && hd in at.path
    && forall i {:trigger m.lists[hd][i]} :: 0 <= i < |m.lists[hd]| ==>
         if depth == 0 then Known(m, at, m.lists[hd][i].value) else Twig(m, at, hd, m.lists[hd][i], depth)
  }

  /** v is a record, or was one. */
  ghost predicate Known(m: Memory, at: Labels, v: Ptr) {
    v in m.records || v in at.freed
  }

  ghost predicate Twig(m: Memory, at: Labels, hd: Ptr, node: ListNode, depth: nat)
    requires depth > 0 && hd in at.path
    decreases depth, 0
  {
    && node.refcount == 1 && node.value in m.symbols && node.value in at.path
    && at.path[node.value] == at.path[hd] + [m.symbols[node.value]]
    && Tree(m, at, node.value, depth - 1)
  }

  function RecordAt(m: Memory, v: Ptr): Datum {
    if v in m.records then m.records[v] else Ordered("")
  }

  ghost function View(m: Memory, at: Labels, hd: Ptr, depth: nat): Store<Datum>
    requires Tree(m, at, hd, depth)
    decreases depth, 1
  {
    var nodes := m.lists[hd];
    if depth == 0 then
      Queue(seq(|nodes|, i requires 0 <= i < |nodes| => Entry(RecordAt(m, nodes[i].value), nodes[i].refcount)))
    else
      Symbols(seq(|nodes|, i requires 0 <= i < |nodes| => KidView(m, at, hd, nodes[i], depth)))
  }

  ghost function KidView(m: Memory, at: Labels, hd: Ptr, node: ListNode, depth: nat): Kid<Datum>
    requires depth > 0 && hd in at.path && Twig(m, at, hd, node, depth)
    decreases depth, 0
  {
    Kid(m.symbols[node.value], View(m, at, node.value, depth - 1))
  }

  /** p is hd or below it. */
  ghost predicate Under(at: Labels, hd: Ptr, p: Ptr)
    requires hd in at.path
  {
    p in at.path && at.path[hd] <= at.path[p]
  }

  ghost predicate SameList(m: Memory, at: Labels, m': Memory, at': Labels, p: Ptr)
    requires p in m.lists && p in at.path
  {
    && p in m'.lists && m'.lists[p] == m.lists[p]
    && p in at'.path && at'.path[p] == at.path[p]
    && (p in m.symbols ==> p in m'.symbols && m'.symbols[p] == m.symbols[p])
    && (forall i {:trigger m.lists[p][i]} :: 0 <= i < |m.lists[p]| ==> SameRecord(m, at, m', at', m.lists[p][i].value))
  }

  ghost predicate SameRecord(m: Memory, at: Labels, m': Memory, at': Labels, v: Ptr) {
    RecordAt(m', v) == RecordAt(m, v) && (Known(m, at, v) ==> Known(m', at', v))
  }

  /** Everything at and below hd is the same in both memories. */
  ghost predicate SameUnder(m: Memory, at: Labels, m': Memory, at': Labels, hd: Ptr)
    requires hd in at.path
  {
    forall p {:trigger Under(at, hd, p)} {:trigger p in m.lists} ::
      p in m.lists && Under(at, hd, p) ==> SameList(m, at, m', at', p)
  }

  /** Nothing changed but at and below hd, and everything new is below hd. */
  ghost predicate SameOutside(m: Memory, at: Labels, m': Memory, at': Labels, hd: Ptr)
    requires hd in at.path
  {
    && hd in at'.path && at'.path[hd] == at.path[hd]
    && (hd in m.symbols ==> hd in m'.symbols && m'.symbols[hd] == m.symbols[hd])
    && (forall p {:trigger Under(at, hd, p)} {:trigger p in m.lists} ::
          p in m.lists && p in at.path && !Under(at, hd, p) ==> SameList(m, at, m', at', p))
    && (forall p {:trigger Under(at', hd, p)} {:trigger p in m'.lists} ::
          p in m'.lists && !Under(at', hd, p) ==> p in m.lists && p in at.path && !Under(at, hd, p))
  }

  lemma UnderKid(m: Memory, at: Labels, hd: Ptr, v: Ptr)
    requires hd in at.path && v in m.symbols && v in at.path && at.path[v] == at.path[hd] + [m.symbols[v]]
    ensures Under(at, hd, v)
    ensures forall p :: Under(at, v, p) ==> Under(at, hd, p)
  {
    var s := at.path[hd];
    assert at.path[v][..|s|] == s;
    forall p | Under(at, v, p) ensures Under(at, hd, p) {
      assert at.path[p][..|s|] == at.path[p][..|s| + 1][..|s|];
    }
  }

  lemma {:induction false} TreeSame(m: Memory, at: Labels, m': Memory, at': Labels, hd: Ptr, depth: nat)
    requires Tree(m, at, hd, depth) && SameUnder(m, at, m', at', hd)
    ensures Tree(m', at', hd, depth)
    decreases depth
  {
    assert Under(at, hd, hd);
    if depth > 0 {
      forall i | 0 <= i < |m.lists[hd]| ensures Twig(m', at', hd, m.lists[hd][i], depth) {
        var v := m.lists[hd][i].value;
        assert Twig(m, at, hd, m.lists[hd][i], depth);
        UnderKid(m, at, hd, v);
        TreeSame(m, at, m', at', v, depth - 1);
      }
    }
  }

  lemma {:induction false} ViewSame(m: Memory, at: Labels, m': Memory, at': Labels, hd: Ptr, depth: nat)
    requires Tree(m, at, hd, depth) && SameUnder(m, at, m', at', hd)
    ensures Tree(m', at', hd, depth) && View(m', at', hd, depth) == View(m, at, hd, depth)
    decreases depth
  {
    TreeSame(m, at, m', at', hd, depth);
    assert Under(at, hd, hd);
    if depth > 0 {
      forall i | 0 <= i < |m.lists[hd]|
        ensures Twig(m, at, hd, m.lists[hd][i], depth) && Twig(m', at', hd, m.lists[hd][i], depth)
        ensures KidView(m', at', hd, m.lists[hd][i], depth) == KidView(m, at, hd, m.lists[hd][i], depth)
      {
        var v := m.lists[hd][i].value;
        assert Twig(m, at, hd, m.lists[hd][i], depth);
        UnderKid(m, at, hd, v);
        ViewSame(m, at, m', at', v, depth - 1);
      }
      assert View(m', at', hd, depth).kids == View(m, at, hd, depth).kids;
    }
  }

  /** What is below one kid is not below another. */
  lemma KidsApart(at: Labels, hd: Ptr, v: Ptr, w: Ptr, a: string, b: string)
    requires hd in at.path && v in at.path && w in at.path
    requires at.path[v] == at.path[hd] + [a] && at.path[w] == at.path[hd] + [b] && a != b
    ensures forall p :: Under(at, w, p) ==> !Under(at, v, p)
  {
    var n := |at.path[hd]|;
    assert at.path[v][n] == a && at.path[w][n] == b;
    forall p | Under(at, w, p) ensures !Under(at, v, p) {
      assert at.path[p][n] == b;
    }
  }

  /** A change at hd and below its k-th kid leaves the other kids alone. */
  lemma SiblingKept(m: Memory, at: Labels, m': Memory, at': Labels, hd: Ptr, k: nat, i: nat, depth: nat)
    requires depth > 0 && Tree(m, at, hd, depth) && DistinctNames(View(m, at, hd, depth).kids)
    requires k < |m.lists[hd]| && i < |m.lists[hd]| && i != k && m.lists[hd][k].value in at.path
    requires hd in at'.path && at'.path[hd] == at.path[hd]
    requires forall p {:trigger p in m.lists} ::
               (p in m.lists && p in at.path && p != hd && !Under(at, m.lists[hd][k].value, p)) ==>
                 SameList(m, at, m', at', p)
    ensures Twig(m, at, hd, m.lists[hd][i], depth) && Twig(m', at', hd, m.lists[hd][i], depth)
    ensures KidView(m', at', hd, m.lists[hd][i], depth) == KidView(m, at, hd, m.lists[hd][i], depth)
  {
    KidOf(m, at, hd, i, depth);
    KidOf(m, at, hd, k, depth);
    var kids, v, w := View(m, at, hd, depth).kids, m.lists[hd][k].value, m.lists[hd][i].value;
    assert Find(kids, kids[i].name) == i && Find(kids, kids[k].name) == k;
    KidsApart(at, hd, v, w, m.symbols[v], m.symbols[w]);
    NotUnderKid(m, at, hd, w);
    assert Under(at, w, w);
    ViewSame(m, at, m', at', w, depth - 1);
  }

  /** A change below the k-th kid replaces the k-th kid of the view. */
  lemma TreeAfterKid(m: Memory, at: Labels, m': Memory, at': Labels, hd: Ptr, k: nat, depth: nat)
    requires depth > 0 && Tree(m, at, hd, depth) && DistinctNames(View(m, at, hd, depth).kids)
    requires k < |m.lists[hd]| && Twig(m, at, hd, m.lists[hd][k], depth)
    requires var v := m.lists[hd][k].value; SameOutside(m, at, m', at', v) && Tree(m', at', v, depth - 1)
    ensures hd in m'.lists && m'.lists[hd] == m.lists[hd] && Tree(m', at', hd, depth)
    ensures View(m', at', hd, depth) == Symbols(View(m, at, hd, depth).kids[k :=
              Kid(m.symbols[m.lists[hd][k].value], View(m', at', m.lists[hd][k].value, depth - 1))])
  {
    var v, kids := m.lists[hd][k].value, View(m, at, hd, depth).kids;
    var kids' := kids[k := Kid(m.symbols[v], View(m', at', v, depth - 1))];
    hide DistinctNames, Under;
    NotUnderKid(m, at, hd, v);
    TopSame(m, at, m', at', hd, v);
    hide SameOutside, SameList, Tree, View, Twig, KidView;
    KidsAre(m, at, hd, depth);
    forall i | 0 <= i < |kids| ensures IsKid(m', at', hd, m.lists[hd][i], depth, kids'[i]) {
      if i != k {
        OtherKid(m, at, m', at', hd, k, i, depth);
      } else {
        SameKid(m, at, m', at', hd, m.lists[hd][k], depth);
      }
    }
    TreeFrom(m', at', hd, depth, kids');
  }

  /** A change below a kid of hd leaves the list at hd as it is. */
  lemma TopSame(m: Memory, at: Labels, m': Memory, at': Labels, hd: Ptr, v: Ptr)
    requires hd in m.lists && hd in at.path && v in at.path && !Under(at, v, hd) && SameOutside(m, at, m', at', v)
    ensures SameList(m, at, m', at', hd)
    ensures hd in m'.lists && m'.lists[hd] == m.lists[hd] && hd in at'.path && at'.path[hd] == at.path[hd]
    ensures forall p {:trigger p in m.lists} :: p in m.lists && p in at.path && !Under(at, v, p) ==>
              SameList(m, at, m', at', p)
  {
  }

  lemma OtherKid(m: Memory, at: Labels, m': Memory, at': Labels, hd: Ptr, k: nat, i: nat, depth: nat)
    requires depth > 0 && Tree(m, at, hd, depth) && DistinctNames(View(m, at, hd, depth).kids)
    requires k < |m.lists[hd]| && i < |m.lists[hd]| && i != k && m.lists[hd][k].value in at.path
    requires hd in at'.path && at'.path[hd] == at.path[hd]
    requires forall p {:trigger p in m.lists} ::
               (p in m.lists && p in at.path && p != hd && !Under(at, m.lists[hd][k].value, p)) ==>
                 SameList(m, at, m', at', p)
    ensures IsKid(m', at', hd, m.lists[hd][i], depth, View(m, at, hd, depth).kids[i])
  {
    KidOf(m, at, hd, i, depth);
    SiblingKept(m, at, m', at', hd, k, i, depth);
  }

  lemma SameKid(m: Memory, at: Labels, m': Memory, at': Labels, hd: Ptr, node: ListNode, depth: nat)
    requires depth > 0 && hd in at.path && Twig(m, at, hd, node, depth) && Tree(m', at', node.value, depth - 1)
    requires hd in at'.path && at'.path[hd] == at.path[hd] && SameOutside(m, at, m', at', node.value)
    ensures IsKid(m', at', hd, node, depth, Kid(m.symbols[node.value], View(m', at', node.value, depth - 1)))
  {
  }

  /** The k-th kid was taken out of the list, and what hung below it may be gone. */
  lemma TreeAfterPrune(m: Memory, at: Labels, m': Memory, at': Labels, hd: Ptr, k: nat, depth: nat)
    requires depth > 0 && Tree(m, at, hd, depth) && DistinctNames(View(m, at, hd, depth).kids)
    requires k < |m.lists[hd]| && Twig(m, at, hd, m.lists[hd][k], depth)
    requires hd in m'.lists && m'.lists[hd] == Without(m.lists[hd], k)
    requires hd in at'.path && at'.path[hd] == at.path[hd]
    requires forall p {:trigger p in m.lists} ::
               (p in m.lists && p in at.path && p != hd && !Under(at, m.lists[hd][k].value, p)) ==>
                 SameList(m, at, m', at', p)
    ensures Tree(m', at', hd, depth)
    ensures View(m', at', hd, depth) == Symbols(View(m, at, hd, depth).kids[..k] + View(m, at, hd, depth).kids[k + 1..])
  {
    assert m.lists[hd][k].value in at.path;
    hide *;
    KidsAre(m, at, hd, depth);
    var nodes, kids := m.lists[hd], View(m, at, hd, depth).kids;
    var kids' := kids[..k] + kids[k + 1..];
    RestAt(kids, k, kids');
    forall i | 0 <= i < |kids'| ensures IsKid(m', at', hd, m'.lists[hd][i], depth, kids'[i]) {
      var j := if i < k then i else i + 1;
      assert m'.lists[hd][i] == nodes[j] && kids'[i] == kids[j];
      OtherKid(m, at, m', at', hd, k, j, depth);
    }
    TreeFrom(m', at', hd, depth, kids');
  }

  lemma PruneOutside(m: Memory, at: Labels, m': Memory, hd: Ptr, k: nat)
    requires hd in m.lists && hd in at.path && k < |m.lists[hd]| && forall p :: p in m.lists ==> p in at.path
    requires var v := m.lists[hd][k].value; v in m.symbols && v in at.path && at.path[v] == at.path[hd] + [m.symbols[v]]
    requires m'.symbols == m.symbols - {m.lists[hd][k].value} && m'.records == m.records
    requires m'.lists == m.lists[hd := Without(m.lists[hd], k)] - {m.lists[hd][k].value}
    ensures SameOutside(m, at, m', at, hd)
    ensures hd in m'.lists && m'.lists[hd] == Without(m.lists[hd], k)
    ensures forall p {:trigger p in m.lists} ::
               (p in m.lists && p in at.path && p != hd && !Under(at, m.lists[hd][k].value, p)) ==>
                 SameList(m, at, m', at, p)
  {
    UnderKid(m, at, hd, m.lists[hd][k].value);
    NotUnderKid(m, at, hd, m.lists[hd][k].value);
    assert Under(at, hd, hd);
  }

  ghost predicate IsKid(m: Memory, at: Labels, hd: Ptr, node: ListNode, depth: nat, kid: Kid<Datum>)
    requires depth > 0 && hd in at.path
  {
    Twig(m, at, hd, node, depth) && KidView(m, at, hd, node, depth) == kid
  }

  lemma KidsAre(m: Memory, at: Labels, hd: Ptr, depth: nat)
    requires depth > 0 && Tree(m, at, hd, depth)
    ensures hd in m.lists && hd in at.path && View(m, at, hd, depth).Symbols?
    ensures |View(m, at, hd, depth).kids| == |m.lists[hd]|
    ensures forall i {:trigger m.lists[hd][i]} :: 0 <= i < |m.lists[hd]| ==>
              IsKid(m, at, hd, m.lists[hd][i], depth, View(m, at, hd, depth).kids[i])
  {
  }

  lemma TreeFrom(m: Memory, at: Labels, hd: Ptr, depth: nat, kids: seq<Kid<Datum>>)
    requires depth > 0 && hd in m.lists && hd in at.path && |m.lists[hd]| == |kids|
    requires forall i :: 0 <= i < |kids| ==> IsKid(m, at, hd, m.lists[hd][i], depth, kids[i])
    ensures Tree(m, at, hd, depth) && View(m, at, hd, depth) == Symbols(kids)
  {
    forall i | 0 <= i < |kids| ensures Twig(m, at, hd, m.lists[hd][i], depth) {
      assert IsKid(m, at, hd, m.lists[hd][i], depth, kids[i]);
    }
    hide Twig, KidView;
    assert View(m, at, hd, depth).kids == kids;
  }

  lemma KidOf(m: Memory, at: Labels, hd: Ptr, k: nat, depth: nat)
    requires depth > 0 && Tree(m, at, hd, depth) && k < |m.lists[hd]|
    ensures Twig(m, at, hd, m.lists[hd][k], depth)
    ensures View(m, at, hd, depth).kids[k] == KidView(m, at, hd, m.lists[hd][k], depth)
  {
  }

  /** A new, empty map value at the end of the list. */
  lemma TreeAfterNew(m: Memory, at: Labels, m': Memory, at': Labels, hd: Ptr, p: Ptr, node: Ptr, name: string,
                     depth: nat)
    requires depth > 0 && Tree(m, at, hd, depth) && hd != p
    requires p !in m.lists && p !in m.symbols && forall q :: q in m.lists ==> q in at.path
    requires m'.symbols == m.symbols[p := name] && m'.records == m.records
    requires m'.lists == m.lists[p := []][hd := m.lists[hd] + [ListNode(node, p, 1)]]
    requires at'.path == at.path[p := at.path[hd] + [name]] && at'.freed == at.freed
    ensures Tree(m', at', hd, depth) && SameOutside(m, at, m', at', hd)
    ensures View(m', at', hd, depth) == Symbols(View(m, at, hd, depth).kids + [Kid(name, EmptyStore(depth - 1))])
    ensures Twig(m', at', hd, ListNode(node, p, 1), depth) && View(m', at', p, depth - 1) == EmptyStore(depth - 1)
  {
    assert hd in m.lists && hd in at.path;
    assert Grown(m, at, m', at', hd, p, node, name);
    hide *;
    NewKid(m, at, m', at', hd, p, node, name, depth);
    NewOutside(m, at, m', at', hd, p, node, name);
    KidsAre(m, at, hd, depth);
    var kids, kid := View(m, at, hd, depth).kids, Kid(name, EmptyStore(depth - 1));
    var kids' := kids + [kid];
    forall i | 0 <= i < |kids'| ensures IsKid(m', at', hd, m'.lists[hd][i], depth, kids'[i]) {
      if i < |kids| {
        OldKid(m, at, m', at', hd, p, node, name, i, depth);
        assert m'.lists[hd][i] == m.lists[hd][i] && kids'[i] == kids[i];
      } else {
        assert m'.lists[hd][i] == ListNode(node, p, 1) && kids'[i] == kid;
      }
    }
    TreeFrom(m', at', hd, depth, kids');
  }

  /** A new map value p, of the given name and with an empty list, is stored at the end of the list at hd. */
  ghost predicate Grown(m: Memory, at: Labels, m': Memory, at': Labels, hd: Ptr, p: Ptr, node: Ptr, name: string) {
    && p !in m.lists && p !in m.symbols && (forall q :: q in m.lists ==> q in at.path)
    && hd in m.lists && hd in at.path && hd != p
    && m'.symbols == m.symbols[p := name] && m'.records == m.records
    && m'.lists == m.lists[p := []][hd := m.lists[hd] + [ListNode(node, p, 1)]]
    && at'.path == at.path[p := at.path[hd] + [name]] && at'.freed == at.freed
  }

  lemma NewKid(m: Memory, at: Labels, m': Memory, at': Labels, hd: Ptr, p: Ptr, node: Ptr, name: string, depth: nat)
    requires depth > 0 && Grown(m, at, m', at', hd, p, node, name)
    ensures hd in at'.path && IsKid(m', at', hd, ListNode(node, p, 1), depth, Kid(name, EmptyStore(depth - 1)))
    ensures Twig(m', at', hd, ListNode(node, p, 1), depth) && View(m', at', p, depth - 1) == EmptyStore(depth - 1)
  {
    assert Tree(m', at', p, depth - 1);
    assert depth == 1 ==> View(m', at', p, 0).entries == [];
    assert depth > 1 ==> View(m', at', p, depth - 1).kids == [];
  }

  lemma NewOutside(m: Memory, at: Labels, m': Memory, at': Labels, hd: Ptr, p: Ptr, node: Ptr, name: string)
    requires Grown(m, at, m', at', hd, p, node, name)
    ensures SameOutside(m, at, m', at', hd) && hd in m'.lists && m'.lists[hd] == m.lists[hd] + [ListNode(node, p, 1)]
  {
    UnderKid(m', at', hd, p);
    assert Under(at, hd, hd);
  }

  lemma OldKid(m: Memory, at: Labels, m': Memory, at': Labels, hd: Ptr, p: Ptr, node: Ptr, name: string, i: nat,
               depth: nat)
    requires Grown(m, at, m', at', hd, p, node, name) && depth > 0 && Tree(m, at, hd, depth) && i < |m.lists[hd]|
    ensures hd in at'.path && IsKid(m', at', hd, m.lists[hd][i], depth, View(m, at, hd, depth).kids[i])
  {
    hide View, KidView;
    var v := m.lists[hd][i].value;
    KidBelow(m, at, hd, i, depth);
    KidOf(m, at, hd, i, depth);
    NotUnderKid(m, at, hd, v);
    SameGrown(m, at, m', at', hd, p, node, name, v);
    hide Tree, SameUnder, Grown, Under;
    ViewSame(m, at, m', at', v, depth - 1);
    KidFrom(m, at, m', at', hd, m.lists[hd][i], depth);
  }

  lemma SameGrown(m: Memory, at: Labels, m': Memory, at': Labels, hd: Ptr, p: Ptr, node: Ptr, name: string, v: Ptr)
    requires Grown(m, at, m', at', hd, p, node, name) && v in at.path && v in m.symbols && v in m.lists
    requires !Under(at, v, hd)
    ensures SameUnder(m, at, m', at', v) && v in at'.path && at'.path[v] == at.path[v] && v in m'.symbols
    ensures hd in at'.path && at'.path[hd] == at.path[hd] && m'.symbols[v] == m.symbols[v]
  {
  }

  lemma KidFrom(m: Memory, at: Labels, m': Memory, at': Labels, hd: Ptr, node: ListNode, depth: nat)
    requires depth > 0 && hd in at.path && Twig(m, at, hd, node, depth) && hd in at'.path
    requires at'.path[hd] == at.path[hd] && node.value in at'.path && at'.path[node.value] == at.path[node.value]
    requires node.value in m'.symbols && m'.symbols[node.value] == m.symbols[node.value]
    requires Tree(m', at', node.value, depth - 1)
    requires View(m', at', node.value, depth - 1) == View(m, at, node.value, depth - 1)
    ensures IsKid(m', at', hd, node, depth, KidView(m, at, hd, node, depth))
  {
  }

  lemma NotUnderKid(m: Memory, at: Labels, hd: Ptr, v: Ptr)
    requires hd in at.path && v in m.symbols && v in at.path && at.path[v] == at.path[hd] + [m.symbols[v]]
    ensures !Under(at, v, hd)
  {
  }

  // ---- Ownership

  /** p is stored in the list it is labelled with. */
  ghost predicate Placed(lists: map<Ptr, seq<ListNode>>, home: map<Ptr, Ptr>, p: Ptr) {
    p in home && home[p] in lists && Contains(lists[home[p]], p)
  }

  /** Who holds what. Every allocated map value and record is in exactly one place: loose (in the hands
      of the running code) or stored in one list; every stored address is allocated, except those freed
      too early. Every allocated list node is linked in exactly one list, and every linked one is allocated. */
  ghost predicate Owned(m: Memory, at: Labels, roots: set<Ptr>, loose: set<Ptr>) {
    Kinds(m, at, roots, loose) && AllStored(m, at, loose) && AllPlaced(m, at, loose) && AllHeld(m, at)
  }

  /** An address is a root, a map value, a record, a list node or free; every list has a path. */
  ghost predicate Kinds(m: Memory, at: Labels, roots: set<Ptr>, loose: set<Ptr>) {
    && m.lists.Keys == m.symbols.Keys + roots
    && loose <= m.symbols.Keys + m.records.Keys
    && m.symbols.Keys !! roots && m.records.Keys !! roots + m.symbols.Keys
    && m.nodes !! roots + m.symbols.Keys + m.records.Keys
    && at.freed !! m.symbols.Keys + m.records.Keys
    && (forall p {:trigger p in m.lists} :: p in m.lists ==> p in at.path && |at.path[p]| >= 1 && (p in roots <==>
      |at.path[p]| == 1))
  }

  /** What a list stores is labelled with that list, and stored once. */
  ghost predicate AllStored(m: Memory, at: Labels, loose: set<Ptr>) {
    && (forall hd, i {:trigger m.lists[hd][i]} :: hd in m.lists && 0 <= i < |m.lists[hd]| ==>
          Stored(m, at, loose, hd, m.lists[hd][i].value))
    && (forall hd {:trigger DistinctValues(m.lists[hd])} :: hd in m.lists ==> DistinctValues(m.lists[hd]))
  }

  /** What is allocated and not loose is stored in the list it is labelled with. */
  ghost predicate AllPlaced(m: Memory, at: Labels, loose: set<Ptr>) {
    && (forall p {:trigger p in m.symbols} :: p in m.symbols && p !in loose ==>
          && Placed(m.lists, at.home, p) && p in at.path && at.home[p] in at.path
          && at.path[p] == at.path[at.home[p]] + [m.symbols[p]])
    && (forall p {:trigger p in m.records} :: p in m.records && p !in loose ==> Placed(m.lists, at.home, p))
  }

  /** The nodes of the lists are allocated and all different, and there are no others. */
  ghost predicate AllHeld(m: Memory, at: Labels) {
    && (forall hd, i {:trigger m.lists[hd][i]} :: hd in m.lists && 0 <= i < |m.lists[hd]| ==>
          Held(m, at, hd, m.lists[hd][i].node))
    && (forall hd {:trigger DistinctNodes(m.lists[hd])} :: hd in m.lists ==> DistinctNodes(m.lists[hd]))
    && (forall n {:trigger n in m.nodes} :: n in m.nodes ==>
          n in at.holder && at.holder[n] in m.lists && HasNode(m.lists[at.holder[n]], n))
  }

  ghost predicate Held(m: Memory, at: Labels, hd: Ptr, n: Ptr) {
    n in m.nodes && n in at.holder && at.holder[n] == hd
  }

  /** Where the link to the k-th node leads: behind the last node, to the head. */
  function Link(nodes: seq<ListNode>, hd: Ptr, k: nat): Ptr {
    if k < |nodes| then nodes[k].node else hd
  }

  /** The successor of a node, saved before the node may go, is the node to look at next. */
  lemma NextKept(nodes: seq<ListNode>, nodes': seq<ListNode>, hd: Ptr, k: nat, kept: bool)
    requires k < |nodes| && nodes' == if kept then nodes else Without(nodes, k)
    ensures Link(nodes', hd, if kept then k + 1 else k) == Link(nodes, hd, k + 1)
  {
  }

  ghost predicate DistinctNodes(nodes: seq<ListNode>) {
    forall i, j :: 0 <= i < j < |nodes| ==> nodes[i].node != nodes[j].node
  }

  ghost predicate HasNode(nodes: seq<ListNode>, n: Ptr) {
    exists i :: 0 <= i < |nodes| && nodes[i].node == n
  }

  // ---- The lists in memory: what the links and fields of their nodes hold

  /** struct ListNode: a list node, or the head of a list. */
  datatype Cell = Cell(next: Ptr, prev: Ptr, value: Ptr, refcount: int)

  /** node->next = b, and node->prev = b. */
  function SetNext(cells: map<Ptr, Cell>, node: Ptr, b: Ptr): map<Ptr, Cell>
    requires node in cells
  {
    cells[node := cells[node].(next := b)]
  }

  function SetPrev(cells: map<Ptr, Cell>, node: Ptr, b: Ptr): map<Ptr, Cell>
    requires node in cells
  {
    cells[node := cells[node].(prev := b)]
  }

  /** The node before position k, or the head. */
  function Back(nodes: seq<ListNode>, hd: Ptr, k: nat): Ptr
    requires k <= |nodes|
  {
    if k == 0 then hd else nodes[k - 1].node
  }

  ghost predicate Joined(cells: map<Ptr, Cell>, a: Ptr, b: Ptr) {
    a in cells && b in cells && cells[a].next == b && cells[b].prev == a
  }

  ghost predicate Shows(cells: map<Ptr, Cell>, x: ListNode) {
    x.node in cells && cells[x.node].value == x.value && cells[x.node].refcount == x.refcount
  }

  /** From the head, next leads through the nodes and back, and prev is its inverse. */
  ghost predicate Ring(nodes: seq<ListNode>, hd: Ptr, cells: map<Ptr, Cell>) {
    && (forall k {:trigger Link(nodes, hd, k)} :: 0 <= k <= |nodes| ==>
          Joined(cells, Back(nodes, hd, k), Link(nodes, hd, k)))
    && (forall k {:trigger nodes[k]} :: 0 <= k < |nodes| ==> Shows(cells, nodes[k]))
  }

  /** Heads and allocated nodes are all the cells that there are. */
  ghost predicate Threaded(m: Memory, cells: map<Ptr, Cell>) {
    && cells.Keys == m.lists.Keys + m.nodes
    && forall hd {:trigger m.lists[hd]} :: hd in m.lists ==> Ring(m.lists[hd], hd, cells)
  }

  ghost predicate OnRing(nodes: seq<ListNode>, hd: Ptr, a: Ptr) {
    a == hd || HasNode(nodes, a)
  }

  /** No address comes twice on a ring. */
  lemma RingPlaces(nodes: seq<ListNode>, hd: Ptr)
    requires DistinctNodes(nodes) && !HasNode(nodes, hd)
    ensures forall i, j {:trigger Back(nodes, hd, i), Back(nodes, hd, j)} :: 0 <= i < j <= |nodes| ==>
              Back(nodes, hd, i) != Back(nodes, hd, j)
    ensures forall i, j {:trigger Link(nodes, hd, i), Link(nodes, hd, j)} :: 0 <= i < j <= |nodes| ==>
              Link(nodes, hd, i) != Link(nodes, hd, j)
    ensures forall i {:trigger Back(nodes, hd, i)} :: 0 <= i <= |nodes| ==> OnRing(nodes, hd, Back(nodes, hd, i))
    ensures forall i {:trigger Link(nodes, hd, i)} :: 0 <= i <= |nodes| ==> OnRing(nodes, hd, Link(nodes, hd, i))
  {
  }

  lemma RingKept(nodes: seq<ListNode>, hd: Ptr, cells: map<Ptr, Cell>, cells': map<Ptr, Cell>)
    requires Ring(nodes, hd, cells)
    requires forall a :: a in cells && OnRing(nodes, hd, a) ==> a in cells' && cells'[a] == cells[a]
    ensures Ring(nodes, hd, cells')
  {
    forall k | 0 <= k <= |nodes| ensures Joined(cells', Back(nodes, hd, k), Link(nodes, hd, k)) {
      assert OnRing(nodes, hd, Back(nodes, hd, k)) && OnRing(nodes, hd, Link(nodes, hd, k));
    }
    forall k | 0 <= k < |nodes| ensures Shows(cells', nodes[k]) {
      assert OnRing(nodes, hd, nodes[k].node);
    }
  }

  /** list_add. */
  lemma RingAppend(nodes: seq<ListNode>, hd: Ptr, cells: map<Ptr, Cell>, x: ListNode, c1: map<Ptr, Cell>,
                   c2: map<Ptr, Cell>, cells': map<Ptr, Cell>)
    requires Ring(nodes, hd, cells) && DistinctNodes(nodes) && !HasNode(nodes, hd) && !OnRing(nodes, hd, x.node)
    requires hd in cells && c1 == cells[x.node := Cell(hd, cells[hd].prev, x.value, x.refcount)]
    requires cells[hd].prev in c1 && c2 == SetNext(c1, cells[hd].prev, x.node)
    requires hd in c2 && cells' == SetPrev(c2, hd, x.node)
    ensures Ring(nodes + [x], hd, cells')
  {
    var n := |nodes|;
    RingPlaces(nodes, hd);
    assert Joined(cells, Back(nodes, hd, n), Link(nodes, hd, n));
    forall k | 0 <= k <= n + 1 ensures Joined(cells', Back(nodes + [x], hd, k), Link(nodes + [x], hd, k)) {
      if k < n {
        assert Joined(cells, Back(nodes, hd, k), Link(nodes, hd, k));
      }
    }
    forall k | 0 <= k <= n ensures Shows(cells', (nodes + [x])[k]) {
      assert k < n ==> Shows(cells, nodes[k]) && OnRing(nodes, hd, nodes[k].node);
    }
  }

  /** list_remove, and free on the node. */
  lemma RingRemove(nodes: seq<ListNode>, hd: Ptr, k: nat, cells: map<Ptr, Cell>, c1: map<Ptr, Cell>,
                   c2: map<Ptr, Cell>)
    requires Ring(nodes, hd, cells) && DistinctNodes(nodes) && !HasNode(nodes, hd) && k < |nodes|
    requires nodes[k].node in cells && cells[nodes[k].node].prev in cells
    requires c1 == SetNext(cells, cells[nodes[k].node].prev, cells[nodes[k].node].next)
    requires cells[nodes[k].node].next in c1
    requires c2 == SetPrev(c1, cells[nodes[k].node].next, cells[nodes[k].node].prev)
    ensures Ring(Without(nodes, k), hd, c2 - {nodes[k].node})
  {
    var rest, cells' := Without(nodes, k), c2 - {nodes[k].node};
    RingPlaces(nodes, hd);
    assert Joined(cells, Back(nodes, hd, k), Link(nodes, hd, k));
    assert Joined(cells, Back(nodes, hd, k + 1), Link(nodes, hd, k + 1));
    forall j | 0 <= j <= |rest| ensures Joined(cells', Back(rest, hd, j), Link(rest, hd, j)) {
      var i := if j < k then j else j + 1;
      assert Joined(cells, Back(nodes, hd, i), Link(nodes, hd, i));
    }
    forall j | 0 <= j < |rest| ensures Shows(cells', rest[j]) {
      var i := if j < k then j else j + 1;
      assert rest[j] == nodes[i] && Shows(cells, nodes[i]);
    }
  }

  lemma RingCount(nodes: seq<ListNode>, hd: Ptr, k: nat, count: int, cells: map<Ptr, Cell>, cells': map<Ptr, Cell>)
    requires Ring(nodes, hd, cells) && DistinctNodes(nodes) && k < |nodes| && nodes[k].node in cells
    requires cells' == cells[nodes[k].node := cells[nodes[k].node].(refcount := count)]
    ensures Ring(nodes[k := nodes[k].(refcount := count)], hd, cells')
  {
    var nodes' := nodes[k := nodes[k].(refcount := count)];
    forall j | 0 <= j <= |nodes| ensures Joined(cells', Back(nodes', hd, j), Link(nodes', hd, j)) {
      assert Joined(cells, Back(nodes, hd, j), Link(nodes, hd, j));
    }
    forall j | 0 <= j < |nodes| ensures Shows(cells', nodes'[j]) {
      assert Shows(cells, nodes[j]);
    }
  }

  /** An address on the ring of one list is not on that of another. */
  lemma RingsApart(m: Memory, at: Labels, roots: set<Ptr>, loose: set<Ptr>, hd: Ptr, h: Ptr)
    requires Owned(m, at, roots, loose) && hd in m.lists && h in m.lists
    ensures DistinctNodes(m.lists[hd]) && !HasNode(m.lists[hd], hd)
    ensures h != hd ==> forall a :: OnRing(m.lists[h], h, a) ==> !OnRing(m.lists[hd], hd, a)
    ensures forall a :: OnRing(m.lists[hd], hd, a) ==> a in m.lists.Keys + m.nodes
  {
    assert forall n :: n in m.nodes ==> n !in m.lists;
    forall a, l | l in m.lists && HasNode(m.lists[l], a) ensures a in m.nodes && a in at.holder && at.holder[a] == l {
      var i :| 0 <= i < |m.lists[l]| && m.lists[l][i].node == a;
      assert Held(m, at, l, m.lists[l][i].node);
    }
  }

  /** A change to one list leaves the others threaded. */
  lemma ThreadedOthers(m: Memory, at: Labels, roots: set<Ptr>, loose: set<Ptr>, hd: Ptr, m': Memory,
                       cells: map<Ptr, Cell>, cells': map<Ptr, Cell>)
    requires Owned(m, at, roots, loose) && Threaded(m, cells) && hd in m.lists && hd in m'.lists
    requires m'.lists == m.lists[hd := m'.lists[hd]] && cells'.Keys == m'.lists.Keys + m'.nodes
    requires forall a :: a in cells && !OnRing(m.lists[hd], hd, a) ==> a in cells' && cells'[a] == cells[a]
    requires Ring(m'.lists[hd], hd, cells')
    ensures Threaded(m', cells')
  {
    hide Owned, OnRing, Ring;
    forall h | h in m'.lists ensures Ring(m'.lists[h], h, cells') {
      if h != hd {
        RingsApart(m, at, roots, loose, hd, h);
        assert Ring(m.lists[h], h, cells);
        RingKept(m.lists[h], h, cells, cells');
      }
    }
  }

  lemma ThreadedAppend(m: Memory, at: Labels, roots: set<Ptr>, loose: set<Ptr>, hd: Ptr, x: ListNode,
                       cells: map<Ptr, Cell>)
    requires Owned(m, at, roots, loose) && Threaded(m, cells) && hd in m.lists
    requires x.node !in m.lists.Keys + m.nodes
    ensures hd in cells && x.node !in cells && cells[hd].prev in cells
    ensures cells[hd].prev != x.node && x.node != hd
    ensures var c1 := cells[x.node := Cell(hd, cells[hd].prev, x.value, x.refcount)];
            var c2 := SetNext(c1, cells[hd].prev, x.node);
            Threaded(m.(lists := m.lists[hd := m.lists[hd] + [x]], nodes := m.nodes + {x.node}),
              SetPrev(c2, hd, x.node))
  {
    hide Owned;
    var nodes := m.lists[hd];
    RingsApart(m, at, roots, loose, hd, hd);
    LastLink(nodes, hd, cells);
    hide OnRing, Ring;
    var c1 := cells[x.node := Cell(hd, cells[hd].prev, x.value, x.refcount)];
    var c2 := SetNext(c1, cells[hd].prev, x.node);
    RingAppend(nodes, hd, cells, x, c1, c2, SetPrev(c2, hd, x.node));
    ThreadedOthers(m, at, roots, loose, hd, m.(lists := m.lists[hd := nodes + [x]], nodes := m.nodes + {x.node}), cells,
      SetPrev(c2, hd, x.node));
  }

  lemma LastLink(nodes: seq<ListNode>, hd: Ptr, cells: map<Ptr, Cell>)
    requires Ring(nodes, hd, cells)
    ensures hd in cells && cells[hd].prev in cells && OnRing(nodes, hd, hd) && OnRing(nodes, hd, cells[hd].prev)
  {
    assert Joined(cells, Back(nodes, hd, |nodes|), Link(nodes, hd, |nodes|));
  }

  lemma FirstLink(nodes: seq<ListNode>, hd: Ptr, cells: map<Ptr, Cell>)
    requires Ring(nodes, hd, cells)
    ensures hd in cells && cells[hd].next == Link(nodes, hd, 0)
  {
    assert Joined(cells, Back(nodes, hd, 0), Link(nodes, hd, 0));
  }

  /** The links of the k-th node, and what it holds. */
  lemma NodeLinks(nodes: seq<ListNode>, hd: Ptr, cells: map<Ptr, Cell>, k: nat)
    requires Ring(nodes, hd, cells) && k < |nodes|
    ensures var n := nodes[k].node;
            && n in cells && OnRing(nodes, hd, n) && Shows(cells, nodes[k])
            && cells[n].next == Link(nodes, hd, k + 1) && cells[n].prev == Back(nodes, hd, k)
            && cells[n].next in cells && OnRing(nodes, hd, cells[n].next)
            && cells[n].prev in cells && OnRing(nodes, hd, cells[n].prev)
  {
    assert Joined(cells, Back(nodes, hd, k), Link(nodes, hd, k));
    assert Joined(cells, Back(nodes, hd, k + 1), Link(nodes, hd, k + 1));
  }

  lemma ThreadedRemove(m: Memory, at: Labels, roots: set<Ptr>, loose: set<Ptr>, hd: Ptr, k: nat,
                       cells: map<Ptr, Cell>)
    requires Owned(m, at, roots, loose) && Threaded(m, cells) && hd in m.lists && k < |m.lists[hd]|
    ensures var n := m.lists[hd][k].node;
            && n in cells && cells[n].next in cells && cells[n].prev in cells && cells[n].prev != n
            && Threaded(m.(lists := m.lists[hd := Without(m.lists[hd], k)], nodes := m.nodes - {n}),
                 SetPrev(SetNext(cells, cells[n].prev, cells[n].next), cells[n].next, cells[n].prev) - {n})
  {
    hide Owned;
    var nodes, n := m.lists[hd], m.lists[hd][k].node;
    RingsApart(m, at, roots, loose, hd, hd);
    NodeLinks(nodes, hd, cells, k);
    NodeNotHead(nodes, hd, k);
    assert n !in m.lists by {
      NodeOfList(m, at, roots, loose, hd, k);
    }
    RingPlaces(nodes, hd);
    assert Back(nodes, hd, k) != Back(nodes, hd, k + 1);
    hide OnRing, Ring, Without, Shows;
    var c1 := SetNext(cells, cells[n].prev, cells[n].next);
    var c2 := SetPrev(c1, cells[n].next, cells[n].prev);
    RingRemove(nodes, hd, k, cells, c1, c2);
    ThreadedOthers(m, at, roots, loose, hd, m.(lists := m.lists[hd := Without(nodes, k)], nodes := m.nodes - {n}),
      cells, c2 - {n});
  }

  lemma NodeNotHead(nodes: seq<ListNode>, hd: Ptr, k: nat)
    requires k < |nodes| && !HasNode(nodes, hd)
    ensures nodes[k].node != hd
  {
  }

  lemma NodeOfList(m: Memory, at: Labels, roots: set<Ptr>, loose: set<Ptr>, hd: Ptr, k: nat)
    requires Owned(m, at, roots, loose) && hd in m.lists && k < |m.lists[hd]|
    ensures m.lists[hd][k].node in m.nodes && m.lists[hd][k].node !in m.lists
  {
    assert Held(m, at, hd, m.lists[hd][k].node);
  }

  lemma ThreadedCount(m: Memory, at: Labels, roots: set<Ptr>, loose: set<Ptr>, hd: Ptr, k: nat, count: int,
                      cells: map<Ptr, Cell>)
    requires Owned(m, at, roots, loose) && Threaded(m, cells) && hd in m.lists && k < |m.lists[hd]|
    ensures var n := m.lists[hd][k].node;
            && n in cells
            && Threaded(m.(lists := m.lists[hd := m.lists[hd][k := m.lists[hd][k].(refcount := count)]]),
                 cells[n := cells[n].(refcount := count)])
  {
    hide Owned;
    var nodes, n := m.lists[hd], m.lists[hd][k].node;
    RingsApart(m, at, roots, loose, hd, hd);
    NodeLinks(nodes, hd, cells, k);
    hide OnRing, Ring, Shows;
    var cells' := cells[n := cells[n].(refcount := count)];
    RingCount(nodes, hd, k, count, cells, cells');
    ThreadedOthers(m, at, roots, loose, hd, m.(lists := m.lists[hd := nodes[k := nodes[k].(refcount := count)]]), cells,
      cells');
  }

  /** A new head, of an empty list. */
  lemma ThreadedNew(m: Memory, m': Memory, p: Ptr, cells: map<Ptr, Cell>, value: Ptr)
    requires Threaded(m, cells) && p !in cells && m'.lists == m.lists[p := []] && m'.nodes == m.nodes
    ensures Threaded(m', cells[p := Cell(p, p, value, 1)])
  {
    var cells' := cells[p := Cell(p, p, value, 1)];
    forall h | h in m'.lists ensures Ring(m'.lists[h], h, cells') {
      if h != p {
        RingIn(m, h, cells);
        RingKept(m.lists[h], h, cells, cells');
      }
    }
  }

  /** list_initialize on the head of an empty list. */
  lemma ThreadedEmpty(m: Memory, at: Labels, roots: set<Ptr>, loose: set<Ptr>, p: Ptr, cells: map<Ptr, Cell>)
    requires Owned(m, at, roots, loose) && Threaded(m, cells) && p in m.lists && m.lists[p] == []
    ensures Threaded(m, cells[p := Cell(p, p, 0, 1)])
  {
    var cells' := cells[p := Cell(p, p, 0, 1)];
    hide Owned;
    RingIn(m, p, cells);
    assert OnRing(m.lists[p], p, p);
    forall h | h in m.lists ensures Ring(m.lists[h], h, cells') {
      if h != p {
        RingsApart(m, at, roots, loose, p, h);
        RingIn(m, h, cells);
        hide Ring;
        RingKept(m.lists[h], h, cells, cells');
      }
    }
  }

  lemma RingIn(m: Memory, h: Ptr, cells: map<Ptr, Cell>)
    requires Threaded(m, cells) && h in m.lists
    ensures Ring(m.lists[h], h, cells) && forall a :: OnRing(m.lists[h], h, a) ==> a in cells
  {
    var nodes := m.lists[h];
    LastLink(nodes, h, cells);
    forall k | 0 <= k < |nodes| ensures nodes[k].node in cells {
      assert Shows(cells, nodes[k]);
    }
  }

  /** A head that is freed, of an empty list. */
  lemma ThreadedFree(m: Memory, at: Labels, roots: set<Ptr>, loose: set<Ptr>, p: Ptr, m': Memory,
                     cells: map<Ptr, Cell>)
    requires Owned(m, at, roots, loose) && Threaded(m, cells) && p in m.lists && m.lists[p] == []
    requires m'.lists == m.lists - {p} && m'.nodes == m.nodes
    ensures Threaded(m', cells - {p})
  {
    assert p !in m.nodes;
    hide Owned, Ring;
    forall h | h in m'.lists ensures Ring(m'.lists[h], h, cells - {p}) {
      RingsApart(m, at, roots, loose, p, h);
      RingIn(m, h, cells);
      RingKept(m.lists[h], h, cells, cells - {p});
    }
  }

  ghost predicate Stored(m: Memory, at: Labels, loose: set<Ptr>, hd: Ptr, v: Ptr) {
    && v in at.home && at.home[v] == hd && v !in loose
    && (v in m.symbols || v in m.records || v in at.freed)
  }

  ghost predicate DistinctValues(nodes: seq<ListNode>) {
    forall i, j :: 0 <= i < j < |nodes| ==> nodes[i].value != nodes[j].value
  }

  lemma ContainsAppend(nodes: seq<ListNode>, node: ListNode, p: Ptr)
    ensures Contains(nodes + [node], p) <==> Contains(nodes, p) || p == node.value
  {
    if Contains(nodes, p) {
      var i :| 0 <= i < |nodes| && nodes[i].value == p;
      assert (nodes + [node])[i].value == p;
    }
    assert (nodes + [node])[|nodes|] == node;
  }

  lemma ContainsWithout(nodes: seq<ListNode>, k: nat, p: Ptr)
    requires k < |nodes| && DistinctValues(nodes)
    ensures Contains(Without(nodes, k), p) <==> Contains(nodes, p) && p != nodes[k].value
  {
    var rest := Without(nodes, k);
    if Contains(nodes, p) && p != nodes[k].value {
      var i :| 0 <= i < |nodes| && nodes[i].value == p;
      assert rest[if i < k then i else i - 1] == nodes[i];
    }
    if Contains(rest, p) {
      var i :| 0 <= i < |rest| && rest[i].value == p;
      assert rest[i] == nodes[if i < k then i else i + 1];
    }
  }

  lemma OwnedAppend(m: Memory, at: Labels, roots: set<Ptr>, loose: set<Ptr>, hd: Ptr, node: ListNode,
                    m': Memory, at': Labels)
    requires Owned(m, at, roots, loose) && hd in m.lists && node.value in loose && !InUse(m, roots, node.node)
    requires m' == m.(lists := m.lists[hd := m.lists[hd] + [node]], nodes := m.nodes + {node.node})
    requires at' == at.(home := at.home[node.value := hd], holder := at.holder[node.node := hd])
    requires node.value in m.symbols ==>
               node.value in at.path && hd in at.path && at.path[node.value] == at.path[hd] + [m.symbols[node.value]]
    ensures Owned(m', at', roots, loose - {node.value})
  {
    hide Owned, Kinds, AllStored, AllPlaced, AllHeld;
    OwnedStored(m, at, roots, loose);
    LooseKind(m, at, roots, loose, node.value);
    KindsLinked(m, at, roots, loose, hd, node, m', at');
    HeldAppend(m, at, hd, node, m', at');
    StoredAppend(m, at, loose, hd, node, m', at');
    PlacedAppend(m, at, loose, hd, node, m', at');
    OwnedOf(m', at', roots, loose - {node.value});
  }

  lemma StoredAppend(m: Memory, at: Labels, loose: set<Ptr>, hd: Ptr, node: ListNode, m': Memory, at': Labels)
    requires AllStored(m, at, loose) && hd in m.lists && node.value in loose
    requires node.value in m.symbols || node.value in m.records
    requires m'.lists == m.lists[hd := m.lists[hd] + [node]] && m'.symbols == m.symbols && m'.records == m.records
    requires at'.home == at.home[node.value := hd] && at'.freed == at.freed
    ensures AllStored(m', at', loose - {node.value})
  {
    forall h, i | h in m'.lists && 0 <= i < |m'.lists[h]|
      ensures Stored(m', at', loose - {node.value}, h, m'.lists[h][i].value)
      ensures i < |m.lists[h]| ==> m'.lists[h][i].value != node.value
    {
      if i < |m.lists[h]| {
        assert m'.lists[h][i] == m.lists[h][i];
        assert Stored(m, at, loose, h, m.lists[h][i].value);
      }
    }
    assert DistinctValues(m.lists[hd]);
  }

  lemma PlacedAppend(m: Memory, at: Labels, loose: set<Ptr>, hd: Ptr, node: ListNode, m': Memory, at': Labels)
    requires AllPlaced(m, at, loose) && hd in m.lists && node.value in loose
    requires m'.lists == m.lists[hd := m.lists[hd] + [node]] && m'.symbols == m.symbols && m'.records == m.records
    requires at'.home == at.home[node.value := hd] && at'.path == at.path
    requires node.value in m.symbols ==>
               node.value in at.path && hd in at.path && at.path[node.value] == at.path[hd] + [m.symbols[node.value]]
    ensures AllPlaced(m', at', loose - {node.value})
  {
    forall p | p in m.symbols.Keys + m.records.Keys && p !in loose - {node.value}
      ensures Placed(m'.lists, at'.home, p)
    {
      ContainsAppend(m.lists[hd], node, p);
    }
  }

  lemma HeldAppend(m: Memory, at: Labels, hd: Ptr, node: ListNode, m': Memory, at': Labels)
    requires AllHeld(m, at) && hd in m.lists && node.node !in m.nodes
    requires m'.lists == m.lists[hd := m.lists[hd] + [node]] && m'.nodes == m.nodes + {node.node}
    requires at'.holder == at.holder[node.node := hd]
    ensures AllHeld(m', at')
  {
    forall h, i | h in m'.lists && 0 <= i < |m'.lists[h]|
      ensures Held(m', at', h, m'.lists[h][i].node) && (i < |m.lists[h]| ==> m'.lists[h][i].node != node.node)
    {
      if i < |m.lists[h]| {
        assert m'.lists[h][i] == m.lists[h][i] && Held(m, at, h, m.lists[h][i].node);
      }
    }
    assert DistinctNodes(m.lists[hd]);
    forall n | n in m'.nodes
      ensures n in at'.holder && at'.holder[n] in m'.lists && HasNode(m'.lists[at'.holder[n]], n)
    {
      if n == node.node {
        assert m'.lists[hd][|m.lists[hd]|] == node;
      } else {
        var h := at.holder[n];
        var i :| 0 <= i < |m.lists[h]| && m.lists[h][i].node == n;
        assert m'.lists[h][i] == m.lists[h][i];
      }
    }
  }

  ghost predicate InUse(m: Memory, roots: set<Ptr>, p: Ptr) {
    p in roots || p in m.lists || p in m.symbols || p in m.records || p in m.nodes
  }

  // The changes that move no node: a new map value or record, a map value or record freed.

  /** What the lists store is still known, and still not loose. */
  lemma StoredKept(m: Memory, at: Labels, loose: set<Ptr>, m': Memory, at': Labels, loose': set<Ptr>)
    requires AllStored(m, at, loose) && at'.home == at.home
    requires forall h :: h in m'.lists ==> (h in m.lists && m'.lists[h] == m.lists[h]) || m'.lists[h] == []
    requires forall h, i {:trigger m.lists[h][i]} :: h in m.lists && 0 <= i < |m.lists[h]| ==>
               var v := m.lists[h][i].value; v !in loose' && (v in m'.symbols || v in m'.records || v in at'.freed)
    ensures AllStored(m', at', loose')
  {
    forall h, i | h in m'.lists && 0 <= i < |m'.lists[h]| ensures Stored(m', at', loose', h, m'.lists[h][i].value) {
      assert Stored(m, at, loose, h, m.lists[h][i].value);
    }
    forall h | h in m'.lists ensures DistinctValues(m'.lists[h]) {
      assert h in m.lists ==> DistinctValues(m.lists[h]);
    }
  }

  /** What is not loose is still where it was. */
  lemma PlacedKept(m: Memory, at: Labels, loose: set<Ptr>, m': Memory, at': Labels, loose': set<Ptr>)
    requires AllPlaced(m, at, loose) && at'.home == at.home && m.symbols.Keys <= m.lists.Keys
    requires forall h :: h in m.lists && m.lists[h] != [] ==> h in m'.lists && m'.lists[h] == m.lists[h]
    requires forall h :: h in m.lists && h in at.path ==> h in at'.path && at'.path[h] == at.path[h]
    requires forall p :: p in m'.symbols && p !in loose' ==>
               p in m.symbols && p !in loose && m'.symbols[p] == m.symbols[p]
    requires forall p :: p in m'.records && p !in loose' ==> p in m.records && p !in loose
    ensures AllPlaced(m', at', loose')
  {
    forall p | (p in m'.symbols || p in m'.records) && p !in loose' ensures Placed(m'.lists, at'.home, p) {
      assert Placed(m.lists, at.home, p);
    }
  }

  /** A new map value. */
  lemma OwnedNew(m: Memory, at: Labels, roots: set<Ptr>, loose: set<Ptr>, p: Ptr, name: string, path: seq<string>,
                 m': Memory, at': Labels)
    requires Owned(m, at, roots, loose) && |path| > 1 && !InUse(m, roots, p) && p !in at.freed
    requires forall hd, i :: hd in m.lists && 0 <= i < |m.lists[hd]| ==> m.lists[hd][i].value != p
    requires m' == m.(symbols := m.symbols[p := name], lists := m.lists[p := []])
    requires at' == at.(path := at.path[p := path])
    ensures Owned(m', at', roots, loose + {p})
  {
    hide Owned, Kinds, AllStored, AllPlaced, AllHeld;
    OwnedStored(m, at, roots, loose);
    KindsNew(m, at, roots, loose, p, name, path, m', at');
    StoredKept(m, at, loose, m', at', loose + {p});
    PlacedKept(m, at, loose, m', at', loose + {p});
    HeldLists(m, at, p, m', at');
    OwnedOf(m', at', roots, loose + {p});
  }

  /** A new record, in the hands of the running code. */
  lemma OwnedRecord(m: Memory, at: Labels, roots: set<Ptr>, loose: set<Ptr>, p: Ptr, d: Datum, m': Memory)
    requires Owned(m, at, roots, loose) && !InUse(m, roots, p) && p !in at.freed
    requires forall hd, i :: hd in m.lists && 0 <= i < |m.lists[hd]| ==> m.lists[hd][i].value != p
    requires m' == m.(records := m.records[p := d])
    ensures Owned(m', at, roots, loose + {p})
  {
    hide Owned, Kinds, AllStored, AllPlaced, AllHeld;
    OwnedStored(m, at, roots, loose);
    KindsRecord(m, at, roots, loose, p, d, m');
    HeldSame(m, at, m', at);
    StoredKept(m, at, loose, m', at, loose + {p});
    PlacedKept(m, at, loose, m', at, loose + {p});
    OwnedOf(m', at, roots, loose + {p});
  }

  /** A loose record is written. */
  lemma OwnedWrite(m: Memory, at: Labels, roots: set<Ptr>, loose: set<Ptr>, p: Ptr, d: Datum, m': Memory)
    requires Owned(m, at, roots, loose) && p in loose && p in m.records && m' == m.(records := m.records[p := d])
    ensures Owned(m', at, roots, loose)
  {
    hide Owned, Kinds, AllStored, AllPlaced, AllHeld;
    OwnedStored(m, at, roots, loose);
    KindsWrite(m, at, roots, loose, p, d, m');
    HeldSame(m, at, m', at);
    StoredKept(m, at, loose, m', at, loose);
    PlacedKept(m, at, loose, m', at, loose);
    OwnedOf(m', at, roots, loose);
  }

  lemma KindsWrite(m: Memory, at: Labels, roots: set<Ptr>, loose: set<Ptr>, p: Ptr, d: Datum, m': Memory)
    requires Kinds(m, at, roots, loose) && p in m.records && m' == m.(records := m.records[p := d])
    ensures Kinds(m', at, roots, loose)
  {
  }

  /** A loose map value with nothing below it is freed. */
  lemma OwnedFree(m: Memory, at: Labels, roots: set<Ptr>, loose: set<Ptr>, p: Ptr, m': Memory)
    requires Owned(m, at, roots, loose) && p in loose && p in m.symbols && m.lists[p] == []
    requires m' == m.(symbols := m.symbols - {p}, lists := m.lists - {p})
    ensures Owned(m', at, roots, loose - {p})
  {
    hide Owned, Kinds, AllStored, AllPlaced, AllHeld;
    OwnedStored(m, at, roots, loose);
    KindsFree(m, at, roots, loose, p, m');
    StoredKept(m, at, loose, m', at, loose - {p});
    PlacedKept(m, at, loose, m', at, loose - {p});
    HeldLists(m, at, p, m', at);
    OwnedOf(m', at, roots, loose - {p});
  }

  lemma OwnedFreeRecord(m: Memory, at: Labels, roots: set<Ptr>, loose: set<Ptr>, p: Ptr, m': Memory, at': Labels)
    requires Owned(m, at, roots, loose) && p in m.records && m' == m.(records := m.records - {p})
    requires at' == if p in loose then at else at.(freed := at.freed + {p})
    ensures Owned(m', at', roots, loose - {p})
  {
    hide Owned, Kinds, AllStored, AllPlaced, AllHeld;
    OwnedStored(m, at, roots, loose);
    KindsFreeRecord(m, at, roots, loose, p, m', at');
    HeldSame(m, at, m', at');
    StoredKept(m, at, loose, m', at', loose - {p});
    PlacedKept(m, at, loose, m', at', loose - {p});
    OwnedOf(m', at', roots, loose - {p});
  }

  // The same changes, as far as the kinds of addresses and the nodes are concerned.

  lemma KindsNew(m: Memory, at: Labels, roots: set<Ptr>, loose: set<Ptr>, p: Ptr, name: string, path: seq<string>,
                 m': Memory, at': Labels)
    requires Kinds(m, at, roots, loose) && |path| > 1 && !InUse(m, roots, p) && p !in at.freed
    requires m' == m.(symbols := m.symbols[p := name], lists := m.lists[p := []])
    requires at' == at.(path := at.path[p := path])
    ensures Kinds(m', at', roots, loose + {p})
  {
  }

  lemma KindsRecord(m: Memory, at: Labels, roots: set<Ptr>, loose: set<Ptr>, p: Ptr, d: Datum, m': Memory)
    requires Kinds(m, at, roots, loose) && !InUse(m, roots, p) && p !in at.freed &&
             m' == m.(records := m.records[p := d])
    ensures Kinds(m', at, roots, loose + {p})
  {
  }

  lemma KindsFree(m: Memory, at: Labels, roots: set<Ptr>, loose: set<Ptr>, p: Ptr, m': Memory)
    requires Kinds(m, at, roots, loose) && p in m.symbols
    requires m' == m.(symbols := m.symbols - {p}, lists := m.lists - {p})
    ensures Kinds(m', at, roots, loose - {p})
  {
  }

  lemma KindsFreeRecord(m: Memory, at: Labels, roots: set<Ptr>, loose: set<Ptr>, p: Ptr, m': Memory, at': Labels)
    requires Kinds(m, at, roots, loose) && p in m.records && m' == m.(records := m.records - {p})
    requires at' == if p in loose then at else at.(freed := at.freed + {p})
    ensures Kinds(m', at', roots, loose - {p})
  {
  }

  /** A list changes, and perhaps a node goes. */
  lemma KindsLists(m: Memory, at: Labels, roots: set<Ptr>, loose: set<Ptr>, m': Memory, at': Labels, loose': set<Ptr>)
    requires Kinds(m, at, roots, loose) && loose' <= loose + m.symbols.Keys + m.records.Keys
    requires m'.lists.Keys == m.lists.Keys && m'.nodes <= m.nodes && m'.symbols == m.symbols && m'.records == m.records
    requires at'.path == at.path && at'.freed == at.freed
    ensures Kinds(m', at', roots, loose')
  {
  }

  lemma KindsLinked(m: Memory, at: Labels, roots: set<Ptr>, loose: set<Ptr>, hd: Ptr, node: ListNode, m': Memory,
                    at': Labels)
    requires Kinds(m, at, roots, loose) && hd in m.lists && !InUse(m, roots, node.node)
    requires m' == m.(lists := m.lists[hd := m.lists[hd] + [node]], nodes := m.nodes + {node.node})
    requires at'.path == at.path && at'.freed == at.freed
    ensures Kinds(m', at', roots, loose - {node.value})
  {
  }

  lemma LooseKind(m: Memory, at: Labels, roots: set<Ptr>, loose: set<Ptr>, v: Ptr)
    requires Kinds(m, at, roots, loose) && v in loose
    ensures v in m.symbols || v in m.records
  {
  }

  lemma HeldSame(m: Memory, at: Labels, m': Memory, at': Labels)
    requires AllHeld(m, at) && m'.lists == m.lists && m'.nodes == m.nodes && at'.holder == at.holder
    ensures AllHeld(m', at')
  {
  }

  lemma OwnedOf(m: Memory, at: Labels, roots: set<Ptr>, loose: set<Ptr>)
    requires Kinds(m, at, roots, loose) && AllStored(m, at, loose) && AllPlaced(m, at, loose) && AllHeld(m, at)
    ensures Owned(m, at, roots, loose)
  {
  }

  /** The parts of Owned, and what they say of a stored address. */
  lemma OwnedStored(m: Memory, at: Labels, roots: set<Ptr>, loose: set<Ptr>)
    requires Owned(m, at, roots, loose)
    ensures Kinds(m, at, roots, loose) && AllStored(m, at, loose) && AllPlaced(m, at, loose) && AllHeld(m, at)
    ensures m.symbols.Keys <= m.lists.Keys && forall p :: p in m.lists ==> p in at.path
    ensures forall h, i {:trigger m.lists[h][i]} :: h in m.lists && 0 <= i < |m.lists[h]| ==>
              Stored(m, at, loose, h, m.lists[h][i].value) && Held(m, at, h, m.lists[h][i].node)
  {
  }

  /** What happens to an address taken out of a list: it becomes loose, unless it was freed before. */
  ghost function Loosened(m: Memory, loose: set<Ptr>, v: Ptr): set<Ptr> {
    if v in m.symbols || v in m.records then loose + {v} else loose
  }

  /** The k-th node is unlinked and freed. */
  lemma OwnedRemove(m: Memory, at: Labels, roots: set<Ptr>, loose: set<Ptr>, hd: Ptr, k: nat, m': Memory)
    requires Owned(m, at, roots, loose) && hd in m.lists && k < |m.lists[hd]|
    requires m' == m.(lists := m.lists[hd := Without(m.lists[hd], k)], nodes := m.nodes - {m.lists[hd][k].node})
    ensures Owned(m', at, roots, Loosened(m, loose, m.lists[hd][k].value)) && m.lists[hd][k].node in m.nodes
  {
    hide Owned, Kinds, AllStored, AllPlaced, AllHeld;
    OwnedStored(m, at, roots, loose);
    KindsLists(m, at, roots, loose, m', at, Loosened(m, loose, m.lists[hd][k].value));
    HeldRemove(m, at, hd, k, m');
    StoredRemove(m, at, loose, hd, k, m');
    PlacedRemove(m, at, loose, hd, k, m');
    OwnedOf(m', at, roots, Loosened(m, loose, m.lists[hd][k].value));
  }

  lemma StoredRemove(m: Memory, at: Labels, loose: set<Ptr>, hd: Ptr, k: nat, m': Memory)
    requires AllStored(m, at, loose) && hd in m.lists && k < |m.lists[hd]|
    requires m'.lists == m.lists[hd := Without(m.lists[hd], k)] && m'.symbols == m.symbols && m'.records == m.records
    ensures AllStored(m', at, Loosened(m, loose, m.lists[hd][k].value))
  {
    var nodes, v := m.lists[hd], m.lists[hd][k].value;
    assert DistinctValues(nodes) && Stored(m, at, loose, hd, v);
    forall h, i | h in m'.lists && 0 <= i < |m'.lists[h]|
      ensures Stored(m', at, Loosened(m, loose, v), h, m'.lists[h][i].value)
    {
      var j := if h == hd && i >= k then i + 1 else i;
      assert m'.lists[h][i] == m.lists[h][j];
      assert Stored(m, at, loose, h, m.lists[h][j].value);
    }
    assert DistinctValues(m'.lists[hd]);
  }

  lemma PlacedRemove(m: Memory, at: Labels, loose: set<Ptr>, hd: Ptr, k: nat, m': Memory)
    requires AllPlaced(m, at, loose) && AllStored(m, at, loose) && hd in m.lists && k < |m.lists[hd]|
    requires m'.lists == m.lists[hd := Without(m.lists[hd], k)] && m'.symbols == m.symbols && m'.records == m.records
    ensures AllPlaced(m', at, Loosened(m, loose, m.lists[hd][k].value))
  {
    var nodes, v := m.lists[hd], m.lists[hd][k].value;
    assert DistinctValues(nodes) && Stored(m, at, loose, hd, v);
    hide AllStored;
    forall p | p in m.symbols.Keys + m.records.Keys && p !in Loosened(m, loose, v)
      ensures Placed(m'.lists, at.home, p)
    {
      ContainsWithout(nodes, k, p);
    }
  }

  lemma HeldRemove(m: Memory, at: Labels, hd: Ptr, k: nat, m': Memory)
    requires AllHeld(m, at) && hd in m.lists && k < |m.lists[hd]|
    requires m'.lists == m.lists[hd := Without(m.lists[hd], k)] && m'.nodes == m.nodes - {m.lists[hd][k].node}
    ensures AllHeld(m', at) && m.lists[hd][k].node in m.nodes
  {
    var nodes, gone := m.lists[hd], m.lists[hd][k].node;
    assert DistinctNodes(nodes) && Held(m, at, hd, gone);
    RestNodes(nodes, k);
    hide Without, DistinctNodes, HasNode, Held;
    forall h, i | h in m'.lists && 0 <= i < |m'.lists[h]| ensures Held(m', at, h, m'.lists[h][i].node) {
      var j := if h == hd && i >= k then i + 1 else i;
      assert m'.lists[h][i] == m.lists[h][j] && Held(m, at, h, m.lists[h][j].node);
      StillHeld(m, at, m', h, m.lists[h][j].node);
    }
    forall n | n in m'.nodes ensures n in at.holder && at.holder[n] in m'.lists && HasNode(m'.lists[at.holder[n]], n) {
      assert n in m.nodes && n != gone;
    }
  }

  lemma StillHeld(m: Memory, at: Labels, m': Memory, h: Ptr, n: Ptr)
    requires Held(m, at, h, n) && n in m'.nodes
    ensures Held(m', at, h, n)
  {
  }

  lemma RestNodes(nodes: seq<ListNode>, k: nat)
    requires DistinctNodes(nodes) && k < |nodes|
    ensures DistinctNodes(Without(nodes, k))
    ensures forall i {:trigger Without(nodes, k)[i]} :: 0 <= i < |nodes| - 1 ==>
              && Without(nodes, k)[i] == nodes[if i < k then i else i + 1]
              && Without(nodes, k)[i].node != nodes[k].node
    ensures |Without(nodes, k)| == |nodes| - 1
    ensures forall n :: HasNode(nodes, n) && n != nodes[k].node ==> HasNode(Without(nodes, k), n)
  {
    var rest := Without(nodes, k);
    assert forall i :: 0 <= i < |rest| ==> rest[i] == nodes[if i < k then i else i + 1];
    forall n | HasNode(nodes, n) && n != nodes[k].node ensures HasNode(rest, n) {
      var i :| 0 <= i < |nodes| && nodes[i].node == n;
      assert rest[if i < k then i else i - 1] == nodes[i];
    }
  }

  lemma OwnedCount(m: Memory, at: Labels, roots: set<Ptr>, loose: set<Ptr>, hd: Ptr, k: nat, count: int, m': Memory)
    requires Owned(m, at, roots, loose) && hd in m.lists && k < |m.lists[hd]|
    requires m' == m.(lists := m.lists[hd := m.lists[hd][k := m.lists[hd][k].(refcount := count)]])
    ensures Owned(m', at, roots, loose)
  {
    hide Owned, Kinds, AllStored, AllPlaced, AllHeld;
    OwnedStored(m, at, roots, loose);
    KindsLists(m, at, roots, loose, m', at, loose);
    HeldCount(m, at, hd, k, count, m');
    StoredCount(m, at, loose, hd, k, count, m');
    PlacedCount(m, at, loose, hd, k, count, m');
    OwnedOf(m', at, roots, loose);
  }

  lemma StoredCount(m: Memory, at: Labels, loose: set<Ptr>, hd: Ptr, k: nat, count: int, m': Memory)
    requires AllStored(m, at, loose) && hd in m.lists && k < |m.lists[hd]|
    requires m' == m.(lists := m.lists[hd := m.lists[hd][k := m.lists[hd][k].(refcount := count)]])
    ensures AllStored(m', at, loose)
  {
    assert DistinctValues(m.lists[hd]);
    forall h, i | h in m'.lists && 0 <= i < |m'.lists[h]|
      ensures m'.lists[h][i].value == m.lists[h][i].value && Stored(m', at, loose, h, m'.lists[h][i].value)
    {
      assert Stored(m, at, loose, h, m.lists[h][i].value);
    }
  }

  lemma PlacedCount(m: Memory, at: Labels, loose: set<Ptr>, hd: Ptr, k: nat, count: int, m': Memory)
    requires AllPlaced(m, at, loose) && hd in m.lists && k < |m.lists[hd]|
    requires m' == m.(lists := m.lists[hd := m.lists[hd][k := m.lists[hd][k].(refcount := count)]])
    ensures AllPlaced(m', at, loose)
  {
    forall p | p in m.symbols.Keys + m.records.Keys && p !in loose ensures Placed(m'.lists, at.home, p) {
      var h := at.home[p];
      var i :| 0 <= i < |m.lists[h]| && m.lists[h][i].value == p;
      assert m'.lists[h][i].value == p;
    }
  }

  lemma HeldCount(m: Memory, at: Labels, hd: Ptr, k: nat, count: int, m': Memory)
    requires AllHeld(m, at) && hd in m.lists && k < |m.lists[hd]|
    requires m' == m.(lists := m.lists[hd := m.lists[hd][k := m.lists[hd][k].(refcount := count)]])
    ensures AllHeld(m', at)
  {
    assert DistinctNodes(m.lists[hd]);
    forall h, i | h in m'.lists && 0 <= i < |m'.lists[h]|
      ensures m'.lists[h][i].node == m.lists[h][i].node && Held(m', at, h, m'.lists[h][i].node)
    {
      assert Held(m, at, h, m.lists[h][i].node);
    }
    forall n | n in m'.nodes ensures HasNode(m'.lists[at.holder[n]], n) {
      var h := at.holder[n];
      var i :| 0 <= i < |m.lists[h]| && m.lists[h][i].node == n;
      assert m'.lists[h][i].node == n;
    }
  }

  /** A new list that is empty, or an empty list that goes. */
  lemma HeldLists(m: Memory, at: Labels, p: Ptr, m': Memory, at': Labels)
    requires AllHeld(m, at) && m'.nodes == m.nodes && at'.holder == at.holder
    requires || (p !in m.lists && m'.lists == m.lists[p := []])
             || (p in m.lists && m.lists[p] == [] && m'.lists == m.lists - {p})
    ensures AllHeld(m', at')
  {
    forall h, i | h in m'.lists && 0 <= i < |m'.lists[h]| ensures Held(m', at', h, m'.lists[h][i].node) {
      assert Held(m, at, h, m.lists[h][i].node);
    }
    forall h | h in m'.lists ensures DistinctNodes(m'.lists[h]) {
      assert h in m.lists ==> DistinctNodes(m.lists[h]);
    }
    forall n | n in m'.nodes ensures at'.holder[n] in m'.lists && HasNode(m'.lists[at'.holder[n]], n) {
      assert HasNode(m.lists[at.holder[n]], n);
    }
  }

  lemma OnlyHeads(heads: map<Ptr, string>, m: Memory, at: Labels, cells: map<Ptr, Cell>)
    requires m == Memory(map p | p in heads :: [], {}, map[], map[])
    requires at == Labels(map p | p in heads :: [heads[p]], map[], map[], {})
    requires cells == map p | p in heads :: Cell(p, p, 0, 1)
    ensures Owned(m, at, heads.Keys, {}) && Threaded(m, cells)
  {
    assert cells.Keys == heads.Keys == m.lists.Keys;
  }

  /** The heap of the expectation store. */
  class Heap {
    var cells: map<Ptr, Cell>      // list heads and list nodes
    var symbols: map<Ptr, string>  // the name in each SymbolMapValue
    var records: map<Ptr, Datum>   // what each SymbolValue, CheckParameterEvent or FuncOrderingValue holds
    ghost var mem: Memory          // what these amount to, with the lists as sequences
    ghost var at: Labels
    ghost const roots: set<Ptr>
    ghost var loose: set<Ptr>      // allocated, and stored in no list
    ghost var fault: bool          // free() was given something that was not allocated

    ghost predicate Valid()
      reads this
    {
      Owned(mem, at, roots, loose) && Threaded(mem, cells) && symbols == mem.symbols && records == mem.records
    }

    /** Static list heads, each empty. */
    constructor (heads: map<Ptr, string>)
      ensures Valid() && roots == heads.Keys && loose == {} && !fault
      ensures mem == Memory(map p | p in heads :: [], {}, map[], map[])
      ensures at == Labels(map p | p in heads :: [heads[p]], map[], map[], {})
    {
      hide Owned, Threaded;
      cells, symbols, records := map p | p in heads :: Cell(p, p, 0, 1), map[], map[];
      mem := Memory(map p | p in heads :: [], {}, map[], map[]);
      at := Labels(map p | p in heads :: [heads[p]], map[], map[], {});
      roots, loose, fault := heads.Keys, {}, false;
      new;
      OnlyHeads(heads, mem, at, cells);
    }

    /** list_initialize, of a list that holds nothing. */
    method ListInitialize(hd: Ptr)
      requires Valid() && hd in mem.lists && mem.lists[hd] == []
      modifies this
      ensures Valid() && mem == old(mem) && at == old(at) && loose == old(loose) && fault == old(fault)
    {
      ThreadedEmpty(mem, at, roots, loose, hd, cells);
      cells := cells[hd := Cell(hd, hd, 0, 1)];
    }

    /** What is known of the nodes of a list: they are allocated, all different, none of them is the
        head, and what they store is labelled with the list. */
    lemma ListHeld(hd: Ptr)
      requires Valid() && hd in mem.lists
      ensures hd in at.path && |at.path[hd]| > 0 && forall p :: p in mem.lists ==> p in at.path
      ensures forall k {:trigger mem.lists[hd][k]} :: 0 <= k < |mem.lists[hd]| ==>
                && mem.lists[hd][k].node in mem.nodes && mem.lists[hd][k].node != hd
                && Stored(mem, at, loose, hd, mem.lists[hd][k].value)
      ensures DistinctNodes(mem.lists[hd])
      ensures forall v :: v in mem.records ==> v !in mem.symbols
      ensures forall v :: v in at.freed ==> v !in mem.symbols && v !in mem.records
      ensures symbols == mem.symbols && records == mem.records
    {
      OwnedStored(mem, at, roots, loose);
      assert forall n :: n in mem.nodes ==> n !in mem.lists;
    }

    /** What the memory holds of the k-th node of a list. */
    lemma NodeHolds(hd: Ptr, k: nat)
      requires Valid() && hd in mem.lists && k < |mem.lists[hd]|
      ensures var x := mem.lists[hd][k];
              && x.node in cells && cells[x.node].value == x.value && cells[x.node].refcount == x.refcount
              && cells[x.node].next == Link(mem.lists[hd], hd, k + 1) && x.node != hd
    {
      ListHeld(hd);
      RingIn(mem, hd, cells);
      hide Owned, Threaded, Ring;
      NodeLinks(mem.lists[hd], hd, cells, k);
    }

    /** list_empty, and where the head of a list leads. */
    lemma HeadLinks(hd: Ptr)
      requires Valid() && hd in mem.lists
      ensures hd in cells && cells[hd].next == Link(mem.lists[hd], hd, 0)
      ensures cells[hd].next == hd <==> mem.lists[hd] == []
      ensures symbols == mem.symbols && records == mem.records
    {
      ListHeld(hd);
      RingIn(mem, hd, cells);
      hide Owned, Threaded, Ring;
      FirstLink(mem.lists[hd], hd, cells);
    }

    /** malloc: any address not in use. */
    method Malloc() returns (p: Ptr)
      requires Valid() && at.freed == {}
      ensures !InUse(mem, roots, p)
      ensures forall hd, i :: hd in mem.lists && 0 <= i < |mem.lists[hd]| ==> mem.lists[hd][i].value != p
    {
      FreshAddress(records.Keys + symbols.Keys + cells.Keys);
      p :| p !in records.Keys + symbols.Keys + cells.Keys;
      forall hd, i | hd in mem.lists && 0 <= i < |mem.lists[hd]| ensures mem.lists[hd][i].value != p {
        assert Stored(mem, at, loose, hd, mem.lists[hd][i].value);
      }
    }

    method NewRecord(d: Datum) returns (p: Ptr)
      requires Valid() && at.freed == {}
      modifies this
      ensures Valid() && p !in old(mem.records) && p !in old(mem.symbols) && p !in old(loose)
      ensures mem == old(mem).(records := old(mem.records)[p := d])
      ensures loose == old(loose) + {p} && at == old(at) && at.freed == {} && fault == old(fault)
    {
      p := Malloc();
      ghost var m := mem;
      records := records[p := d];
      mem := mem.(records := mem.records[p := d]);
      OwnedRecord(m, at, roots, loose, p, d, mem);
      loose := loose + {p};
    }

    /** A SymbolMapValue with its embedded list head; path is where it is going to be. */
    method NewSymbol(name: string, ghost path: seq<string>) returns (p: Ptr)
      requires Valid() && at.freed == {} && |path| > 1
      modifies this
      ensures Valid() && p !in old(mem.lists) && p !in old(mem.symbols) && p !in old(loose)
      ensures mem == old(mem).(symbols := old(mem.symbols)[p := name], lists := old(mem.lists)[p := []])
      ensures at == old(at).(path := old(at.path)[p := path])
      ensures loose == old(loose) + {p} && at.freed == {} && fault == old(fault)
    {
      hide Owned, Threaded, InUse;
      p := Malloc();
      ghost var m, a := mem, at;
      FreshCell(p);
      ThreadedNew(mem, mem.(symbols := mem.symbols[p := name], lists := mem.lists[p := []]), p, cells, 0);
      symbols, cells := symbols[p := name], cells[p := Cell(p, p, 0, 1)];
      mem := mem.(symbols := mem.symbols[p := name], lists := mem.lists[p := []]);
      at := at.(path := at.path[p := path]);
      OwnedNew(m, a, roots, loose, p, name, path, mem, at);
      loose := loose + {p};
    }

    lemma Concrete()
      requires Valid()
      ensures symbols == mem.symbols && records == mem.records
    {
    }

    lemma SymbolHasList(p: Ptr)
      requires Valid() && p in mem.symbols
      ensures p in mem.lists
    {
    }

    lemma FreshCell(p: Ptr)
      requires Valid() && !InUse(mem, roots, p)
      ensures p !in cells && p !in mem.lists && p !in mem.symbols && p !in loose && p !in mem.records
    {
    }

    /** Writing a record that the running code holds. */
    method WriteRecord(p: Ptr, d: Datum)
      requires Valid() && p in loose && p in mem.records
      modifies this
      ensures Valid() && mem == old(mem).(records := old(mem.records)[p := d])
      ensures at == old(at) && loose == old(loose) && fault == old(fault)
    {
      ghost var m := mem;
      records := records[p := d];
      mem := mem.(records := mem.records[p := d]);
      OwnedWrite(m, at, roots, loose, p, d, mem);
    }

    /** list_add_value: a node is allocated and linked at the end of the list. */
    method ListAddValue(hd: Ptr, v: Ptr, count: int) returns (n: Ptr)
      requires Valid() && at.freed == {} && hd in mem.lists && v in loose
      requires v in mem.symbols ==> v in at.path && hd in at.path && at.path[v] == at.path[hd] + [mem.symbols[v]]
      modifies this
      ensures Valid() && n !in old(mem.nodes)
      ensures mem == old(mem).(lists := old(mem.lists)[hd := old(mem.lists)[hd] + [ListNode(n, v, count)]],
                               nodes := old(mem.nodes) + {n})
      ensures at == old(at).(home := old(at.home)[v := hd], holder := old(at.holder)[n := hd])
      ensures loose == old(loose) - {v} && fault == old(fault)
    {
      hide Owned, Threaded;
      n := Malloc();
      ghost var m, a := mem, at;
      ThreadedAppend(m, a, roots, loose, hd, ListNode(n, v, count), cells);
      cells := cells[n := Cell(hd, cells[hd].prev, v, count)];
      cells := SetNext(cells, cells[hd].prev, n);
      cells := SetPrev(cells, hd, n);
      mem := mem.(lists := mem.lists[hd := mem.lists[hd] + [ListNode(n, v, count)]], nodes := mem.nodes + {n});
      at := at.(home := at.home[v := hd], holder := at.holder[n := hd]);
      OwnedAppend(m, a, roots, loose, hd, ListNode(n, v, count), mem, at);
      loose := loose - {v};
    }

    /** free on a list node; freeing what is not allocated is a fault. */
    method FreeNode(n: Ptr)
      modifies this
      ensures mem == old(mem).(nodes := old(mem.nodes) - {n}) && at == old(at) && loose == old(loose)
      ensures cells == old(cells) - {n} && symbols == old(symbols) && records == old(records)
      ensures fault == (old(fault) || n !in old(mem.nodes))
    {
      fault := fault || n !in mem.nodes;
      cells, mem := cells - {n}, mem.(nodes := mem.nodes - {n});
    }

    /** list_remove_free without a cleanup: the k-th node is unlinked and freed, its value is the caller's. */
    method ListRemoveFree(node: Ptr, ghost hd: Ptr, ghost k: nat)
      requires Valid() && hd in mem.lists && k < |mem.lists[hd]| && node == mem.lists[hd][k].node
      modifies this
      ensures Valid()
      ensures mem == old(mem).(lists := old(mem.lists)[hd := Without(old(mem.lists)[hd], k)],
                               nodes := old(mem.nodes) - {old(mem.lists)[hd][k].node})
      ensures old(mem.lists)[hd][k].node in old(mem.nodes)
      ensures at == old(at) && fault == old(fault)
      ensures loose == Loosened(old(mem), old(loose), old(mem.lists)[hd][k].value)
    {
      hide Owned, Threaded, Without;
      ghost var m := mem;
      ThreadedRemove(m, at, roots, loose, hd, k, cells);
      cells := SetNext(cells, cells[node].prev, cells[node].next);
      cells := SetPrev(cells, cells[node].next, cells[node].prev);
      mem := mem.(lists := mem.lists[hd := Without(mem.lists[hd], k)]);
      OwnedRemove(m, at, roots, loose, hd, k, mem.(nodes := mem.nodes - {node}));
      FreeNode(node);
      loose := Loosened(m, loose, m.lists[hd][k].value);
    }

    /** node->refcount = count. */
    method SetCount(node: Ptr, count: int, ghost hd: Ptr, ghost k: nat)
      requires Valid() && hd in mem.lists && k < |mem.lists[hd]| && node == mem.lists[hd][k].node
      modifies this
      ensures Valid()
      ensures mem == old(mem).(lists := old(mem.lists)[hd := old(mem.lists)[hd][k :=
                        old(mem.lists)[hd][k].(refcount := count)]])
      ensures at == old(at) && loose == old(loose) && fault == old(fault)
    {
      hide Owned, Threaded;
      ghost var m := mem;
      ThreadedCount(m, at, roots, loose, hd, k, count, cells);
      cells := cells[node := cells[node].(refcount := count)];
      mem := mem.(lists := mem.lists[hd := mem.lists[hd][k := mem.lists[hd][k].(refcount := count)]]);
      OwnedCount(m, at, roots, loose, hd, k, count, mem);
    }

    /** The first node of the list whose map value has the given name. */
    method ListFind(hd: Ptr, name: string, ghost depth: nat) returns (found: bool, node: Ptr, ghost k: nat)
      requires Valid() && depth > 0 && Tree(mem, at, hd, depth)
      ensures k == Find(View(mem, at, hd, depth).kids, name) && (found <==> k < |mem.lists[hd]|)
      ensures found ==> Twig(mem, at, hd, mem.lists[hd][k], depth) && mem.symbols[mem.lists[hd][k].value] == name
      ensures found ==> node == mem.lists[hd][k].node
    {
      hide Owned, Threaded, Stored, DistinctNodes, Tree, Twig, View, KidView;
      TopOf(mem, at, hd, depth);
      HeadLinks(hd);
      found, node, k := false, cells[hd].next, 0;
      ghost var kids := View(mem, at, hd, depth).kids;
      while node != hd
        invariant 0 <= k <= |mem.lists[hd]| && node == Link(mem.lists[hd], hd, k) && !found
        invariant forall i :: 0 <= i < k ==> kids[i].name != name
        decreases |mem.lists[hd]| - k
      {
        LinkEnds(hd, k);
        NodeHolds(hd, k);
        KidBelow(mem, at, hd, k, depth);
        if symbols[cells[node].value] == name {
          found := true;
          break;
        }
        node := cells[node].next;
        k := k + 1;
      }
      LinkEnds(hd, k);
      FindIs(kids, name, k);
    }

    /** The node of the map value for name: found in the list, or created at its end. */
    method FindOrAddSymbol(hd: Ptr, name: string, ghost depth: nat) returns (node: Ptr, ghost k: nat)
      requires Valid() && at.freed == {} && depth > 0
      requires Tree(mem, at, hd, depth) && WellFormed(View(mem, at, hd, depth), depth)
      modifies this
      ensures Valid() && at.freed == {} && fault == old(fault)
      ensures mem.records == old(mem.records) && loose == old(loose)
      ensures SameOutside(old(mem), old(at), mem, at, hd)
      ensures FoundAt(old(View(mem, at, hd, depth)), name, mem, at, hd, k, depth)
      ensures node == mem.lists[hd][k].node
    {
      hide Owned, Threaded, Tree, Twig, View, KidView, SameOutside, WellFormed, DistinctNames, Find, InUse, FoundAt;
      var found;
      TopOf(mem, at, hd, depth);
      ListHeld(hd);
      found, node, k := ListFind(hd, name, depth);
      ghost var m, a := mem, at;
      if found {
        SameOutsideSelf(m, a, hd);
        FoundThere(m, a, hd, name, k, depth);
      } else {
        var symbol := NewSymbol(name, at.path[hd] + [name]);
        node := ListAddValue(hd, symbol, 1);
        TreeAfterNew(m, a, mem, at, hd, symbol, node, name, depth);
        KidsWellFormed(View(m, a, hd, depth), depth);
        FoundNew(View(m, a, hd, depth), name, mem, at, hd, symbol, node, k, depth);
      }
    }

    /** list_add_value on a queue of values. */
    method Enqueue(hd: Ptr, value: Ptr, count: int)
      requires Valid() && at.freed == {} && Tree(mem, at, hd, 0) && value in mem.records && value in loose
      modifies this
      ensures Valid() && at.freed == old(at.freed) && fault == old(fault)
      ensures mem.records == old(mem.records) && mem.symbols == old(mem.symbols) && loose == old(loose) - {value}
      ensures SameOutside(old(mem), old(at), mem, at, hd) && Tree(mem, at, hd, 0)
      ensures View(mem, at, hd, 0) ==
              Queue(old(View(mem, at, hd, 0)).entries + [Entry(old(mem.records)[value], count)])
    {
      hide Owned, Threaded, SameOutside, Tree, View;
      ghost var m, a := mem, at;
      QueueIs(m, a, hd);
      ListHeld(hd);
      var node := ListAddValue(hd, value, count);
      LeafLists(m, a, mem, at, hd, mem.lists[hd]);
      QueueChanged(mem, at, hd, View(m, a, hd, 0).entries + [Entry(m.records[value], count)]);
    }

    /** add_symbol_value: the value goes to the end of the queue that the names lead to. */
    method AddSymbolValue(hd: Ptr, names: seq<string>, value: Ptr, count: int)
      requires Valid() && at.freed == {} && |names| > 0
      requires Tree(mem, at, hd, |names|) && WellFormed(View(mem, at, hd, |names|), |names|)
      requires value in mem.records && value in loose
      modifies this
      ensures Valid() && at.freed == {} && fault == old(fault)
      ensures mem.records == old(mem.records) && loose == old(loose) - {value}
      ensures SameOutside(old(mem), old(at), mem, at, hd) && Tree(mem, at, hd, |names|)
      ensures View(mem, at, hd, |names|) ==
              Add(old(View(mem, at, hd, |names|)), names, Entry(old(mem.records)[value], count))
      decreases |names|, 1
    {
      hide Owned, Threaded, SameOutside, FoundAt, Tree, Twig;
      hide View, KidView, Under, WellFormed, DistinctNames, Find, Add;
      ghost var s := View(mem, at, hd, |names|);
      TopOf(mem, at, hd, |names|);
      var node;
      ghost var k;
      node, k := FindOrAddSymbol(hd, names[0], |names|);
      FoundKid(s, names[0], mem, at, hd, k, |names|);
      NodeHolds(hd, k);
      var target := cells[node].value;
      ghost var m, a := mem, at;
      AddBelow(target, names[1..], value, count);
      AddStep(s, names, Entry(mem.records[value], count), m, a, mem, at, hd, k);
      SameOutsideKid(old(mem), old(at), m, a, mem, at, hd, target);
    }

    /** The two branches of add_symbol_value: the last name leads to a queue, the others to a subtree. */
    method AddBelow(target: Ptr, names: seq<string>, value: Ptr, count: int)
      requires Valid() && at.freed == {}
      requires Tree(mem, at, target, |names|) && WellFormed(View(mem, at, target, |names|), |names|)
      requires value in mem.records && value in loose
      modifies this
      ensures Valid() && at.freed == {} && fault == old(fault)
      ensures mem.records == old(mem.records) && loose == old(loose) - {value}
      ensures SameOutside(old(mem), old(at), mem, at, target) && Tree(mem, at, target, |names|)
      ensures View(mem, at, target, |names|) ==
              Add(old(View(mem, at, target, |names|)), names, Entry(old(mem.records)[value], count))
      decreases |names|, 2
    {
      if |names| == 0 {
        Enqueue(target, value, count);
      } else {
        AddSymbolValue(target, names, value, count);
      }
    }

    /** free on a SymbolMapValue, with the list head embedded in it. */
    method FreeSymbol(p: Ptr)
      requires Valid() && p in loose && p in mem.symbols && mem.lists[p] == []
      modifies this
      ensures Valid()
      ensures mem == old(mem).(symbols := old(mem.symbols) - {p}, lists := old(mem.lists) - {p})
      ensures at == old(at) && loose == old(loose) - {p} && fault == old(fault)
    {
      hide Owned, Threaded;
      SymbolHasList(p);
      ghost var m := mem;
      ThreadedFree(m, at, roots, loose, p, mem.(symbols := mem.symbols - {p}, lists := mem.lists - {p}), cells);
      symbols, cells := symbols - {p}, cells - {p};
      mem := mem.(symbols := mem.symbols - {p}, lists := mem.lists - {p});
      OwnedFree(m, at, roots, loose, p, mem);
      loose := loose - {p};
    }

    /** What the caller of get_symbol_value gets: the record, which is its own to free if rc is 1. */
    ghost predicate Handed(g: Got<Datum>, rc: int, output: Ptr, loose0: set<Ptr>)
      reads this
    {
      && rc == g.rc
      && g.value.Some?
      && output in mem.records && mem.records[output] == g.value.value
      && (if rc == 1 then output !in loose0 && loose == loose0 + {output}
          else output !in loose && loose == loose0)
    }

    /** The first value of a queue is handed out and its count goes down. */
    method TakeFirst(hd: Ptr) returns (rc: int, output: Ptr)
      requires Valid() && at.freed == {} && Tree(mem, at, hd, 0) && Size(View(mem, at, hd, 0)) > 0
      modifies this
      ensures Valid() && at.freed == {} && fault == old(fault)
      ensures mem.records == old(mem.records) && mem.symbols == old(mem.symbols)
      ensures SameOutside(old(mem), old(at), mem, at, hd) && Tree(mem, at, hd, 0)
      ensures Handed(Get(old(View(mem, at, hd, 0)), []), rc, output, old(loose))
      ensures rc != 1 ==> InTree(mem, hd, 0, output)
      ensures View(mem, at, hd, 0) == Get(old(View(mem, at, hd, 0)), []).store
    {
      hide Owned, Threaded, SameOutside, Tree, View;
      QueueIs(mem, at, hd);
      ListHeld(hd);
      ghost var m, a, entries := mem, at, View(mem, at, hd, 0).entries;
      assert mem.lists[hd] != [];  // assert_true(return_value) never fires
      HeadLinks(hd);
      NodeHolds(hd, 0);
      var node := cells[hd].next;
      output, rc := cells[node].value, cells[node].refcount;
      if rc - 1 == 0 {
        ListRemoveFree(node, hd, 0);
      } else if rc > -2 {
        SetCount(node, rc - 1, hd, 0);
      }
      LeafLists(m, a, mem, at, hd, mem.lists[hd]);
      QueueChanged(mem, at, hd, Consume(entries));
      assert rc != 1 ==> mem.lists[hd][0].value == output;
    }

    /** list_remove_free with free_symbol_map_value, for a map value whose list is empty. */
    method Prune(node: Ptr, ghost hd: Ptr, ghost k: nat, ghost depth: nat)
      requires Valid() && depth > 0 && Tree(mem, at, hd, depth) && DistinctNames(View(mem, at, hd, depth).kids)
      requires k < |mem.lists[hd]| && Twig(mem, at, hd, mem.lists[hd][k], depth)
      requires mem.lists[mem.lists[hd][k].value] == [] && node == mem.lists[hd][k].node
      modifies this
      ensures Valid() && at == old(at) && fault == old(fault)
      ensures mem.records == old(mem.records) && mem.symbols.Keys <= old(mem.symbols).Keys && loose == old(loose)
      ensures SameOutside(old(mem), old(at), mem, at, hd) && Tree(mem, at, hd, depth)
      ensures mem.lists[hd] == Without(old(mem.lists)[hd], k)
      ensures var kids := old(View(mem, at, hd, depth)).kids;
              View(mem, at, hd, depth) == Symbols(kids[..k] + kids[k + 1..])
    {
      hide Owned, Threaded, SameOutside, SameList, Tree, View, Without;
      TopOf(mem, at, hd, depth);
      KidBelow(mem, at, hd, k, depth);
      ListHeld(hd);
      ghost var m := mem;
      NodeHolds(hd, k);
      var v := cells[node].value;
      NotUnderKid(m, at, hd, v);
      ListRemoveFree(node, hd, k);
      FreeSymbol(v);
      assert mem.lists == m.lists[hd := Without(m.lists[hd], k)] - {v};
      PruneOutside(m, at, mem, hd, k);
      TreeAfterPrune(m, at, mem, at, hd, k, depth);
    }

    /** get_symbol_value: the front value of the queue that the names lead to. */
    method GetSymbolValue(hd: Ptr, names: seq<string>) returns (rc: int, output: Ptr)
      requires Valid() && at.freed == {} && |names| > 0
      requires Tree(mem, at, hd, |names|) && WellFormed(View(mem, at, hd, |names|), |names|)
      modifies this
      ensures Valid() && at.freed == {} && fault == old(fault)
      ensures mem.records == old(mem.records)
      ensures SameOutside(old(mem), old(at), mem, at, hd) && Tree(mem, at, hd, |names|)
      ensures View(mem, at, hd, |names|) == Get(old(View(mem, at, hd, |names|)), names).store
      ensures var g := Get(old(View(mem, at, hd, |names|)), names);
              if g.value.Some? then Handed(g, rc, output, old(loose)) && (rc != 1 ==> InTree(mem, hd, |names|, output))
              else rc == 0 && loose == old(loose)
      decreases |names|, 1
    {
      hide Owned, Threaded, SameOutside, Tree, Twig, View, KidView, Under, WellFormed, DistinctNames, Find, Get;
      TopOf(mem, at, hd, |names|);
      ghost var s := View(mem, at, hd, |names|);
      ghost var m, a := mem, at;
      KidsWellFormed(s, |names|);
      Unchanged(hd);
      var found, node;
      ghost var k;
      found, node, k := ListFind(hd, names[0], |names|);
      GetUnfold(s, names, k);
      output := 0;
      if !found {
        rc := 0;
        return;
      }
      NodeHolds(hd, k);
      var target := cells[node].value;
      KidBelow(m, a, hd, k, |names|);
      rc, output := GetBelow(target, names[1..]);
      ghost var m1, a1 := mem, at;
      TreeAfterKid(m, a, m1, a1, hd, k, |names|);
      SameOutsideKid(m, a, m, a, m1, a1, hd, target);
      ghost var sub := View(m1, a1, target, |names| - 1);
      KidBelow(m1, a1, hd, k, |names|);
      InTreeUp(m1, hd, k, |names|, output);
      HeadLinks(target);
      if cells[target].next == target {
        EmptyTree(m1, target, |names| - 1, output);
        DistinctReplace(s.kids, k, sub);
        Prune(node, hd, k, |names|);
        SameOutsideTwice(m, a, m1, a1, mem, at, hd);
        assert s.kids[k := Kid(names[0], sub)][..k] == s.kids[..k];
        assert s.kids[k := Kid(names[0], sub)][k + 1..] == s.kids[k + 1..];
      }
    }

    lemma Unchanged(hd: Ptr)
      requires Valid() && hd in at.path
      ensures SameOutside(mem, at, mem, at, hd) && Shrinks(mem, mem)
    {
    }

    /** The two branches of get_symbol_value below the first name. */
    method GetBelow(target: Ptr, names: seq<string>) returns (rc: int, output: Ptr)
      requires Valid() && at.freed == {}
      requires Tree(mem, at, target, |names|) && WellFormed(View(mem, at, target, |names|), |names|)
      requires Size(View(mem, at, target, |names|)) > 0
      modifies this
      ensures Valid() && at.freed == {} && fault == old(fault)
      ensures mem.records == old(mem.records)
      ensures SameOutside(old(mem), old(at), mem, at, target) && Tree(mem, at, target, |names|)
      ensures View(mem, at, target, |names|) == Get(old(View(mem, at, target, |names|)), names).store
      ensures var g := Get(old(View(mem, at, target, |names|)), names);
              if g.value.Some? then Handed(g, rc, output, old(loose)) && (rc != 1 ==>
                InTree(mem, target, |names|, output))
              else rc == 0 && loose == old(loose)
      decreases |names|, 2
    {
      if |names| == 0 {
        rc, output := TakeFirst(target);
      } else {
        rc, output := GetSymbolValue(target, names);
      }
    }

    /** free on a record; freeing what is not allocated is a fault. */
    method FreeRecord(p: Ptr)
      requires Valid()
      modifies this
      ensures Valid() && fault == (old(fault) || p !in old(mem.records))
      ensures mem == old(mem).(records := old(mem.records) - {p})
      ensures at == if p in old(loose) || p !in old(mem.records) then old(at)
                    else old(at).(freed := old(at).freed + {p})
      ensures loose == if p in old(mem.records) then old(loose) - {p} else old(loose)
    {
      ghost var m, a := mem, at;
      records := records - {p};
      if p in m.records {
        mem := mem.(records := mem.records - {p});
        at := if p in loose then at else at.(freed := at.freed + {p});
        OwnedFreeRecord(m, a, roots, loose, p, mem, at);
        loose := loose - {p};
      } else {
        fault := true;
        assert m.records - {p} == m.records;
      }
    }

    /** list_remove_free with free_value on a queue of values. */
    method DropAt(node: Ptr, ghost hd: Ptr, ghost k: nat)
      requires Valid() && at.freed == {} && Tree(mem, at, hd, 0) && k < |mem.lists[hd]|
      requires node == mem.lists[hd][k].node
      modifies this
      ensures Valid() && at.freed == {} && fault == old(fault) && loose == old(loose)
      ensures Shrinks(old(mem), mem) && mem.symbols == old(mem.symbols)
      ensures SameOutside(old(mem), old(at), mem, at, hd) && Tree(mem, at, hd, 0)
      ensures mem.lists[hd] == Without(old(mem).lists[hd], k)
      ensures View(mem, at, hd, 0) == Queue(Without(old(View(mem, at, hd, 0)).entries, k))
      ensures k == 0 ==> View(mem, at, hd, 0) == Queue(old(View(mem, at, hd, 0)).entries[1..])
    {
      hide Owned, Threaded, SameOutside, Tree, View;
      ghost var m, a := mem, at;
      QueueIs(m, a, hd);
      ListHeld(hd);
      NodeHolds(hd, k);
      var v := cells[node].value;
      ValueGone(m, a, roots, loose, hd, k);
      ListRemoveFree(node, hd, k);
      FreeRecord(v);
      LeafOutside(m, a, mem, at, hd, mem.lists[hd]);
      QueueChanged(mem, at, hd, Without(View(m, a, hd, 0).entries, k));
      assert k == 0 ==> Without(View(m, a, hd, 0).entries, k) == View(m, a, hd, 0).entries[1..];
    }

    /** --node->refcount on the k-th node of a queue. */
    method CountDown(node: Ptr, ghost hd: Ptr, ghost k: nat)
      requires Valid() && Tree(mem, at, hd, 0) && k < |mem.lists[hd]| && node == mem.lists[hd][k].node
      modifies this
      ensures Valid() && at == old(at) && fault == old(fault) && loose == old(loose)
      ensures mem.records == old(mem.records) && mem.symbols == old(mem.symbols)
      ensures SameOutside(old(mem), old(at), mem, at, hd) && Tree(mem, at, hd, 0)
      ensures mem.lists[hd] == old(mem).lists[hd][k :=
                old(mem).lists[hd][k].(refcount := old(mem).lists[hd][k].refcount - 1)]
      ensures var entries := old(View(mem, at, hd, 0)).entries;
              View(mem, at, hd, 0) == Queue(entries[k := Entry(entries[k].value, entries[k].count - 1)])
    {
      hide Owned, Threaded, SameOutside, Tree, View;
      ghost var m, a := mem, at;
      QueueIs(m, a, hd);
      ListHeld(hd);
      NodeHolds(hd, k);
      SetCount(node, cells[node].refcount - 1, hd, k);
      LeafLists(m, a, mem, at, hd, mem.lists[hd]);
      ghost var entries := View(m, a, hd, 0).entries;
      QueueChanged(mem, at, hd, entries[k := Entry(entries[k].value, entries[k].count - 1)]);
    }

    /** The pass has gone through the first done map values of the list, of which i are left; current is
        the node to look at next. */
    ghost predicate SweptTo(hd: Ptr, depth: nat, kids: seq<Kid<Datum>>, done: nat, i: nat, current: Ptr)
      requires depth > 0
      reads this
    {
      && Valid() && at.freed == {} && Tree(mem, at, hd, depth) && View(mem, at, hd, depth).Symbols?
      && done <= |kids| && i == |SweepKids(kids[..done])|
      && View(mem, at, hd, depth).kids == SweepKids(kids[..done]) + kids[done..]
      && DistinctNames(View(mem, at, hd, depth).kids)
      && |mem.lists[hd]| == i + |kids| - done && current == Link(mem.lists[hd], hd, i)
      && forall k :: done <= k < |kids| ==> WellFormed(kids[k].sub, depth - 1)
    }

    /** The end-of-test pass: in each queue, the first value goes if it may be returned any number of times. */
    method RemoveAlwaysReturnValues(hd: Ptr, depth: nat)
      requires Valid() && at.freed == {} && depth > 0
      requires Tree(mem, at, hd, depth) && WellFormed(View(mem, at, hd, depth), depth)
      modifies this
      ensures Valid() && at.freed == {} && fault == old(fault) && loose == old(loose)
      ensures Shrinks(old(mem), mem)
      ensures SameOutside(old(mem), old(at), mem, at, hd) && Tree(mem, at, hd, depth)
      ensures View(mem, at, hd, depth) == Sweep(old(View(mem, at, hd, depth)))
      decreases depth, 2
    {
      hide *;
      TopOf(mem, at, hd, depth);
      ghost var kids := View(mem, at, hd, depth).kids;
      ghost var done := 0;
      ghost var i := 0;
      HeadLinks(hd);
      var current := cells[hd].next;
      Unchanged(hd);
      SweepBegins(hd, depth, current);
      while current != hd
        invariant SweptTo(hd, depth, kids, done, i, current)
        invariant fault == old(fault) && loose == old(loose)
        invariant Shrinks(old(mem), mem) && SameOutside(old(mem), old(at), mem, at, hd) && hd in old(at).path
        decreases |kids| - done
      {
        ghost var m, a := mem, at;
        current, i := SweepNext(hd, depth, current, i, kids, done);
        SweepStep(old(mem), old(at), m, a, mem, at, hd);
        done := done + 1;
        SweptBounds(hd, depth, kids, done, i, current);
      }
      SweepEnds(hd, depth, kids, done, i);
    }

    lemma SweepBegins(hd: Ptr, depth: nat, current: Ptr)
      requires Valid() && at.freed == {} && depth > 0
      requires Tree(mem, at, hd, depth) && WellFormed(View(mem, at, hd, depth), depth)
      requires current == Link(mem.lists[hd], hd, 0)
      ensures View(mem, at, hd, depth).Symbols? && SweptTo(hd, depth, View(mem, at, hd, depth).kids, 0, 0, current)
      ensures Sweep(View(mem, at, hd, depth)) == Symbols(SweepKids(View(mem, at, hd, depth).kids))
    {
      SweepStart(View(mem, at, hd, depth), depth);
    }

    lemma SweptBounds(hd: Ptr, depth: nat, kids: seq<Kid<Datum>>, done: nat, i: nat, current: Ptr)
      requires depth > 0 && SweptTo(hd, depth, kids, done, i, current)
      ensures done <= |kids|
    {
    }

    lemma SweepEnds(hd: Ptr, depth: nat, kids: seq<Kid<Datum>>, done: nat, i: nat)
      requires depth > 0 && SweptTo(hd, depth, kids, done, i, hd)
      ensures Valid() && at.freed == {} && Tree(mem, at, hd, depth) &&
              View(mem, at, hd, depth) == Symbols(SweepKids(kids))
    {
      LinkEnds(hd, i);
      assert kids[..done] == kids;
    }

    /** One round of the pass: current is swept, and its successor, saved before, comes next. */
    method SweepNext(hd: Ptr, depth: nat, current: Ptr, ghost i: nat, ghost kids: seq<Kid<Datum>>, ghost done: nat)
      returns (next: Ptr, ghost i': nat)
      requires depth > 0 && SweptTo(hd, depth, kids, done, i, current) && current != hd
      modifies this
      ensures SweptTo(hd, depth, kids, done + 1, i', next)
      ensures fault == old(fault) && loose == old(loose)
      ensures Shrinks(old(mem), mem) && SameOutside(old(mem), old(at), mem, at, hd)
      decreases depth, 1, 1
    {
      hide Owned, Threaded, SameOutside, Tree, Twig, View;
      hide KidView, DistinctNames, WellFormed, Shrinks, Sweep, SweepKids, Size;
      TopOf(mem, at, hd, depth);
      LinkEnds(hd, i);
      ghost var nodes, now := mem.lists[hd], View(mem, at, hd, depth).kids;
      assert now[i] == kids[done];
      NodeHolds(hd, i);
      next := cells[current].next;
      var kept := SweepOne(current, hd, i, depth);
      TopOf(mem, at, hd, depth);
      NextKept(nodes, mem.lists[hd], hd, i, kept);
      SweepRound(kids, done, now, View(mem, at, hd, depth).kids, kept);
      i' := if kept then i + 1 else i;
    }

    lemma LinkEnds(hd: Ptr, k: nat)
      requires Valid() && hd in mem.lists && k <= |mem.lists[hd]|
      ensures Link(mem.lists[hd], hd, k) == hd <==> k == |mem.lists[hd]|
    {
      ListHeld(hd);
    }

    lemma SweepStep(m: Memory, at: Labels, m1: Memory, at1: Labels, m2: Memory, at2: Labels, hd: Ptr)
      requires hd in at.path && SameOutside(m, at, m1, at1, hd) && SameOutside(m1, at1, m2, at2, hd)
      requires Shrinks(m, m1) && Shrinks(m1, m2)
      ensures SameOutside(m, at, m2, at2, hd) && Shrinks(m, m2)
    {
      SameOutsideTwice(m, at, m1, at1, m2, at2, hd);
    }

    /** One round of the pass: sweep what is below the k-th map value, and drop it if nothing is left. */
    method SweepOne(node: Ptr, ghost hd: Ptr, ghost k: nat, depth: nat) returns (kept: bool)
      requires Valid() && at.freed == {} && depth > 0
      requires Tree(mem, at, hd, depth) && DistinctNames(View(mem, at, hd, depth).kids) && k < |mem.lists[hd]|
      requires WellFormed(View(mem, at, hd, depth).kids[k].sub, depth - 1) && node == mem.lists[hd][k].node
      modifies this
      ensures Valid() && at.freed == {} && fault == old(fault) && loose == old(loose)
      ensures Shrinks(old(mem), mem)
      ensures SameOutside(old(mem), old(at), mem, at, hd) && Tree(mem, at, hd, depth)
      ensures var kids := old(View(mem, at, hd, depth)).kids; var sub := Sweep(kids[k].sub);
              View(mem, at, hd, depth).kids ==
              if kept then kids[k := Kid(kids[k].name, sub)] else kids[..k] + kids[k + 1..]
      ensures kept <==> Size(Sweep(old(View(mem, at, hd, depth)).kids[k].sub)) > 0
      ensures mem.lists[hd] == if kept then old(mem.lists)[hd] else Without(old(mem.lists)[hd], k)
      decreases depth, 1, 0
    {
      hide Owned, Threaded, SameOutside, Tree, Twig, View;
      hide KidView, DistinctNames, Find, WellFormed, Under, Shrinks, Without;
      TopOf(mem, at, hd, depth);
      ListHeld(hd);
      ghost var m, a, kids := mem, at, View(mem, at, hd, depth).kids;
      KidBelow(m, a, hd, k, depth);
      Unchanged(hd);
      NodeHolds(hd, k);
      var target := cells[node].value;
      SweepBelow(target, depth - 1);
      ghost var m1, a1 := mem, at;
      TreeAfterKid(m, a, m1, a1, hd, k, depth);
      SameOutsideKid(m, a, m, a, m1, a1, hd, target);
      KidBelow(m1, a1, hd, k, depth);
      HeadLinks(target);
      kept := cells[target].next != target;
      if !kept {
        ghost var sub := View(m1, a1, target, depth - 1);
        DistinctReplace(kids, k, sub);
        Prune(node, hd, k, depth);
        SameOutsideTwice(m, a, m1, a1, mem, at, hd);
        ShrinkThrough(m, m, m1, mem);
        assert kids[k := Kid(kids[k].name, sub)][..k] == kids[..k];
        assert kids[k := Kid(kids[k].name, sub)][k + 1..] == kids[k + 1..];
      }
    }

    /** What the pass does below one map value: nothing if the list there is empty. */
    method SweepBelow(target: Ptr, depth: nat)
      requires Valid() && at.freed == {}
      requires Tree(mem, at, target, depth) && WellFormed(View(mem, at, target, depth), depth)
      modifies this
      ensures Valid() && at.freed == {} && fault == old(fault) && loose == old(loose)
      ensures Shrinks(old(mem), mem)
      ensures SameOutside(old(mem), old(at), mem, at, target) && Tree(mem, at, target, depth)
      ensures View(mem, at, target, depth) == Sweep(old(View(mem, at, target, depth)))
      decreases depth, 3
    {
      hide Owned, Threaded, SameOutside;
      Unchanged(target);
      HeadLinks(target);
      var first := cells[target].next;
      if first != target {
        NodeHolds(target, 0);
        if depth > 0 {
          RemoveAlwaysReturnValues(target, depth);
        } else if cells[first].refcount < -1 {
          DropAt(first, target, 0);
        }
      }
    }

    /** The values that are left in a queue, read for the message about them. */
    method ReadValues(hd: Ptr) returns (left: seq<Datum>)
      requires Valid() && at.freed == {} && Tree(mem, at, hd, 0)
      ensures left == Values(View(mem, at, hd, 0).entries)
    {
      hide *;
      hide Valid;
      QueueIs(mem, at, hd);
      HeadLinks(hd);
      ghost var values := Values(View(mem, at, hd, 0).entries);
      left := [];
      ghost var i := 0;
      var node := cells[hd].next;
      while node != hd
        invariant i <= |values| && left == values[..i] && node == Link(mem.lists[hd], hd, i)
        decreases |values| - i
      {
        LinkEnds(hd, i);
        RecordOf(hd, i);
        left := left + [records[cells[node].value]];
        node := cells[node].next;
        i := i + 1;
      }
      LinkEnds(hd, i);
      assert values[..|values|] == values;
    }

    /** What the memory holds of the k-th value of a queue. */
    lemma RecordOf(hd: Ptr, k: nat)
      requires Valid() && at.freed == {} && Tree(mem, at, hd, 0) && k < |mem.lists[hd]|
      ensures var node := Link(mem.lists[hd], hd, k);
              && node in cells && cells[node].value in records && cells[node].next == Link(mem.lists[hd], hd, k + 1)
              && k < |Values(View(mem, at, hd, 0).entries)|
              && records[cells[node].value] == Values(View(mem, at, hd, 0).entries)[k]
    {
      QueueIs(mem, at, hd);
      NodeHolds(hd, k);
      HeadLinks(hd);
      hide Owned, Threaded, Tree, View;
    }

    /** check_for_leftover_values: the number of symbols with values that were never retrieved, and
        the records that are read to report them, in order. */
    method CheckForLeftoverValues(hd: Ptr, depth: nat) returns (count: nat, left: seq<Datum>)
      requires Valid() && at.freed == {} && depth > 0
      requires Tree(mem, at, hd, depth) && WellFormed(View(mem, at, hd, depth), depth)
      ensures count == Leftovers(View(mem, at, hd, depth)) && left == AllValues(View(mem, at, hd, depth))
      decreases depth, 1
    {
      TopOf(mem, at, hd, depth);
      ghost var kids := View(mem, at, hd, depth).kids;
      CountStarts(kids);
      hide *;
      hide Valid;
      HeadLinks(hd);
      count, left := 0, [];
      ghost var i := 0;
      var node := cells[hd].next;
      while node != hd
        invariant 0 <= i <= |mem.lists[hd]| && node == Link(mem.lists[hd], hd, i) && Counted(kids, i, count, left)
        decreases |mem.lists[hd]| - i
      {
        LinkEnds(hd, i);
        var some, more, next := ReadKid(node, hd, i, depth, kids);
        CountNext(kids, i, count, left);
        if some {
          count := count + 1;
        }
        left, node := left + more, next;
        i := i + 1;
      }
      LinkEnds(hd, i);
      CountEnds(kids, count, left);
    }

    /** The values that are left below kid k. */
    method ReadKid(node: Ptr, ghost hd: Ptr, ghost k: nat, depth: nat, ghost kids: seq<Kid<Datum>>)
      returns (some: bool, left: seq<Datum>, next: Ptr)
      requires Valid() && at.freed == {} && depth > 0
      requires Tree(mem, at, hd, depth) && WellFormed(View(mem, at, hd, depth), depth)
      requires View(mem, at, hd, depth) == Symbols(kids) && k < |mem.lists[hd]| && node == Link(mem.lists[hd], hd, k)
      ensures next == Link(mem.lists[hd], hd, k + 1)
      ensures k < |kids| && left == AllValues(kids[k].sub) && (some <==> Size(kids[k].sub) > 0)
      decreases depth, 0
    {
      hide Tree, View, Twig, WellFormed, AllValues, Size, Owned;
      hide Valid;
      ghost var v := ChildOf(hd, k, depth);
      NodeHolds(hd, k);
      next := cells[node].next;
      var target := cells[node].value;
      some, left := ReadBelow(target, depth - 1);
    }

    lemma ChildOf(hd: Ptr, k: nat, depth: nat) returns (v: Ptr)
      requires Valid() && depth > 0 && Tree(mem, at, hd, depth) && WellFormed(View(mem, at, hd, depth), depth)
      requires k < |mem.lists[hd]|
      ensures mem.lists[hd][k].node in mem.nodes
      ensures hd in mem.lists && mem.lists[hd][k].value == v
      ensures Tree(mem, at, v, depth - 1) && WellFormed(View(mem, at, v, depth - 1), depth - 1)
      ensures View(mem, at, hd, depth).Symbols? && k < |View(mem, at, hd, depth).kids|
      ensures View(mem, at, hd, depth).kids[k].sub == View(mem, at, v, depth - 1)
    {
      v := mem.lists[hd][k].value;
      ListHeld(hd);
      KidBelow(mem, at, hd, k, depth);
      KidsWellFormed(View(mem, at, hd, depth), depth);
    }

    /** The values that are left below one symbol. */
    method ReadBelow(target: Ptr, depth: nat) returns (some: bool, left: seq<Datum>)
      requires Valid() && at.freed == {}
      requires Tree(mem, at, target, depth) && WellFormed(View(mem, at, target, depth), depth)
      ensures left == AllValues(View(mem, at, target, depth)) && (some <==> Size(View(mem, at, target, depth)) > 0)
      decreases depth, 2
    {
      SizeIs(mem, at, target, depth);
      EmptyValues(View(mem, at, target, depth), depth);
      hide *;
      hide Valid;
      HeadLinks(target);
      some, left := cells[target].next != target, [];
      if some && depth == 0 {
        left := ReadValues(target);
      } else if some {
        var n;
        n, left := CheckForLeftoverValues(target, depth);
      }
    }

    /** list_free: every node goes; the cleanup frees a record, or a map value with all below it.
        Nothing else changes. Something freed before (lost, if it is one) is noticed. */
    method ListFree(hd: Ptr, depth: nat, ghost lost: Ptr)
      requires Valid() && Tree(mem, at, hd, depth) && WellFormed(View(mem, at, hd, depth), depth)
      modifies this
      ensures Valid() && loose == old(loose) && at.freed == old(at).freed
      ensures Shrinks(old(mem), mem)
      ensures SameOutside(old(mem), old(at), mem, at, hd)
      ensures hd in mem.lists && mem.lists[hd] == []
      ensures old(fault) ==> fault
      ensures old(at).freed == {} ==> fault == old(fault)
      ensures InTree(old(mem), hd, depth, lost) && lost !in old(mem).records ==> fault
      decreases depth, 2
    {
      hide *;
      TopIn(mem, at, hd, depth);
      Unchanged(hd);
      HeadLinks(hd);
      while cells[hd].next != hd
        invariant Valid() && loose == old(loose) && at.freed == old(at).freed
        invariant hd in mem.lists && hd in cells && (cells[hd].next == hd <==> mem.lists[hd] == [])
        invariant Tree(mem, at, hd, depth) && WellFormed(View(mem, at, hd, depth), depth)
        invariant Shrinks(old(mem), mem)
        invariant SameOutside(old(mem), old(at), mem, at, hd)
        invariant old(fault) ==> fault
        invariant old(at).freed == {} ==> fault == old(fault)
        invariant InTree(old(mem), hd, depth, lost) && lost !in old(mem).records ==>
                    fault || (InTree(mem, hd, depth, lost) && lost !in mem.records)
        decreases |mem.lists[hd]|
      {
        ghost var m, a := mem, at;
        FreeFirst(hd, depth, lost);
        HeadLinks(hd);
        SweepStep(old(mem), old(at), m, a, mem, at, hd);
      }
      EmptyTree(mem, hd, depth, lost);
    }

    /** One round of list_free. */
    method FreeFirst(hd: Ptr, depth: nat, ghost lost: Ptr)
      requires Valid() && Tree(mem, at, hd, depth) && WellFormed(View(mem, at, hd, depth), depth) && mem.lists[hd] != []
      modifies this
      ensures Valid() && loose == old(loose) && at.freed == old(at).freed
      ensures Tree(mem, at, hd, depth) && WellFormed(View(mem, at, hd, depth), depth)
      ensures |mem.lists[hd]| == |old(mem).lists[hd]| - 1
      ensures Shrinks(old(mem), mem)
      ensures SameOutside(old(mem), old(at), mem, at, hd)
      ensures old(fault) ==> fault
      ensures old(at).freed == {} ==> fault == old(fault)
      ensures InTree(old(mem), hd, depth, lost) && lost !in old(mem).records ==>
                fault || (InTree(mem, hd, depth, lost) && lost !in mem.records)
      decreases depth, 1
    {
      if depth == 0 {
        FreeFirstValue(hd, lost);
      } else {
        FreeFirstSymbol(hd, depth, lost);
      }
    }

    method FreeFirstValue(hd: Ptr, ghost lost: Ptr)
      requires Valid() && Tree(mem, at, hd, 0) && mem.lists[hd] != []
      modifies this
      ensures Valid() && loose == old(loose) && at.freed == old(at).freed
      ensures Tree(mem, at, hd, 0) && View(mem, at, hd, 0).Queue? && mem.lists[hd] == Without(old(mem).lists[hd], 0)
      ensures Shrinks(old(mem), mem)
      ensures SameOutside(old(mem), old(at), mem, at, hd)
      ensures old(fault) ==> fault
      ensures old(at).freed == {} ==> fault == old(fault)
      ensures Contains(old(mem).lists[hd], lost) && lost !in old(mem).records ==>
                fault || (Contains(mem.lists[hd], lost) && lost !in mem.records)
    {
      hide Owned, Threaded, SameOutside, Tree, View;
      ghost var m, a := mem, at;
      QueueIs(m, a, hd);
      ListHeld(hd);
      HeadLinks(hd);
      NodeHolds(hd, 0);
      var node := cells[hd].next;
      var v := cells[node].value;
      ValueGone(m, a, roots, loose, hd, 0);
      ContainsWithout(m.lists[hd], 0, lost);
      ListRemoveFree(node, hd, 0);
      FreeRecord(v);
      LeafOutside(m, a, mem, at, hd, mem.lists[hd]);
      QueueLeft(m, a, mem, at, hd, 0);
    }

    /** A map value that is stored in a list is in nobody's hands. */
    lemma KidHeld(hd: Ptr, v: Ptr)
      requires Valid() && hd in mem.lists && |mem.lists[hd]| > 0 && v == mem.lists[hd][0].value && v in mem.symbols
      requires v in at.path && at.path[v] == at.path[hd] + [mem.symbols[v]]
      ensures v !in loose && Loosened(mem, loose, v) == loose + {v} && v != hd
      ensures forall p :: p in mem.lists ==> p in at.path
      ensures hd in cells && cells[hd].next == mem.lists[hd][0].node
    {
      ListHeld(hd);
      HeadLinks(hd);
      assert Stored(mem, at, loose, hd, mem.lists[hd][0].value);
    }

    method FreeFirstSymbol(hd: Ptr, depth: nat, ghost lost: Ptr)
      requires Valid() && depth > 0
      requires Tree(mem, at, hd, depth) && WellFormed(View(mem, at, hd, depth), depth) && mem.lists[hd] != []
      modifies this
      ensures Valid() && loose == old(loose) && at.freed == old(at).freed
      ensures Tree(mem, at, hd, depth) && WellFormed(View(mem, at, hd, depth), depth)
      ensures mem.lists[hd] == Without(old(mem).lists[hd], 0)
      ensures Shrinks(old(mem), mem)
      ensures SameOutside(old(mem), old(at), mem, at, hd)
      ensures old(fault) ==> fault
      ensures old(at).freed == {} ==> fault == old(fault)
      ensures InTree(old(mem), hd, depth, lost) && lost !in old(mem).records ==>
                fault || (InTree(mem, hd, depth, lost) && lost !in mem.records)
      decreases depth, 0
    {
      hide *;
      TopOf(mem, at, hd, depth);
      ghost var m, a, kids := mem, at, View(mem, at, hd, depth).kids;
      KidsWellFormed(View(mem, at, hd, depth), depth);
      SizeIs(mem, at, hd, depth);
      KidBelow(mem, at, hd, 0, depth);
      NodeHolds(hd, 0);
      KidHeld(hd, mem.lists[hd][0].value);
      var node := cells[hd].next;
      var v := cells[node].value;
      ListRemoveFree(node, hd, 0);
      ghost var m1 := mem;
      KidCut(m, a, m1, hd, 0, depth, lost);
      ListFree(v, depth - 1, lost);
      ghost var m2 := mem;
      TopKept(m1, a, m2, at, v);
      FreeSymbol(v);
      KidFreed(m, a, m1, m2, mem, at, hd, depth);
      TreeAfterPrune(m, a, mem, at, hd, 0, depth);
      ShapeRemove(kids, 0, depth);
      ShrinkThrough(m, m1, m2, mem);
      if InTree(m, hd, depth, lost) {
        InTreeRest(m, a, mem, at, hd, depth, lost);
      }
    }
  }

  lemma TopKept(m: Memory, at: Labels, m': Memory, at': Labels, hd: Ptr)
    requires hd in at.path && SameOutside(m, at, m', at', hd)
    ensures hd in m.symbols ==> hd in m'.symbols && m'.symbols[hd] == m.symbols[hd]
  {
  }

  lemma ShrinkThrough(m: Memory, m1: Memory, m2: Memory, m3: Memory)
    requires m1.records == m.records && m1.symbols == m.symbols && Shrinks(m1, m2)
    requires m3.records == m2.records && m3.symbols.Keys <= m2.symbols.Keys
    ensures Shrinks(m, m3)
  {
  }

  /** Unlinking a map node leaves the tree below it whole. */
  lemma KidCut(m: Memory, at: Labels, m1: Memory, hd: Ptr, k: nat, depth: nat, x: Ptr)
    requires depth > 0 && Tree(m, at, hd, depth) && k < |m.lists[hd]| && Twig(m, at, hd, m.lists[hd][k], depth)
    requires m1.lists == m.lists[hd := Without(m.lists[hd], k)] && m1.symbols == m.symbols && m1.records == m.records
    ensures var v := m.lists[hd][k].value;
            && Tree(m1, at, v, depth - 1) && View(m1, at, v, depth - 1) == View(m, at, v, depth - 1)
            && (InTree(m, v, depth - 1, x) ==> InTree(m1, v, depth - 1, x))
  {
    var v := m.lists[hd][k].value;
    NotUnderKid(m, at, hd, v);
    ViewSame(m, at, m1, at, v, depth - 1);
    if InTree(m, v, depth - 1, x) {
      InTreeSame(m, at, m1, at, v, depth - 1, x);
    }
  }

  lemma {:induction false} InTreeSame(m: Memory, at: Labels, m': Memory, at': Labels, hd: Ptr, depth: nat, x: Ptr)
    requires Tree(m, at, hd, depth) && SameUnder(m, at, m', at', hd) && InTree(m, hd, depth, x)
    ensures InTree(m', hd, depth, x)
    decreases depth
  {
    assert Under(at, hd, hd);
    if depth > 0 {
      var i :| 0 <= i < |m.lists[hd]| && InTree(m, m.lists[hd][i].value, depth - 1, x);
      KidOf(m, at, hd, i, depth);
      UnderKid(m, at, hd, m.lists[hd][i].value);
      InTreeSame(m, at, m', at', m.lists[hd][i].value, depth - 1, x);
      assert m'.lists[hd][i] == m.lists[hd][i];
    }
  }

  /** m1: the first map node is unlinked; m2: what hung below it is freed; m3: its map value is, too. */
  lemma KidFreed(m: Memory, at: Labels, m1: Memory, m2: Memory, m3: Memory, at3: Labels, hd: Ptr, depth: nat)
    requires depth > 0 && Tree(m, at, hd, depth) && m.lists[hd] != [] && Twig(m, at, hd, m.lists[hd][0], depth)
    requires forall p :: p in m.lists ==> p in at.path
    requires m1.lists == m.lists[hd := Without(m.lists[hd], 0)] && m1.symbols == m.symbols && m1.records == m.records
    requires SameOutside(m1, at, m2, at3, m.lists[hd][0].value)
    requires var v := m.lists[hd][0].value;
             m3.symbols == m2.symbols - {v} && m3.lists == m2.lists - {v} && m3.records == m2.records
    ensures hd in m3.lists && m3.lists[hd] == Without(m.lists[hd], 0) && hd in at3.path && at3.path[hd] == at.path[hd]
    ensures forall p {:trigger p in m.lists} ::
               (p in m.lists && p in at.path && p != hd && !Under(at, m.lists[hd][0].value, p)) ==>
                 SameList(m, at, m3, at3, p)
    ensures SameOutside(m, at, m3, at3, hd)
  {
    var v := m.lists[hd][0].value;
    NotUnderKid(m, at, hd, v);
    UnderKid(m, at, hd, v);
    assert Under(at, v, v) && Under(at, hd, hd);
    TopSame(m1, at, m2, at3, hd, v);
    hide Tree, Twig, SameOutside;
    forall p | p in m.lists && p != hd && !Under(at, v, p) ensures SameList(m, at, m3, at3, p) {
      FreedBeside(m, at, m1, m2, m3, at3, hd, v, p);
    }
    forall p | p in m3.lists && !Under(at3, hd, p) ensures p in m.lists && !Under(at, hd, p) {
      NothingNew(m, at, m1, m2, at3, hd, v, p);
    }
    OutsideFrom(m, at, m3, at3, hd);
  }

  /** A list beside the kid v stays as it is when the kid is unlinked, freed, and its map value, too. */
  lemma FreedBeside(m: Memory, at: Labels, m1: Memory, m2: Memory, m3: Memory, at3: Labels, hd: Ptr, v: Ptr, p: Ptr)
    requires p in m.lists && p in at.path && p != hd && v in at.path && !Under(at, v, p) && p != v
    requires m1.lists.Keys == m.lists.Keys && m1.lists[p] == m.lists[p]
    requires m1.symbols == m.symbols && m1.records == m.records
    requires SameList(m1, at, m2, at3, p)
    requires m3.symbols == m2.symbols - {v} && m3.lists == m2.lists - {v} && m3.records == m2.records
    ensures SameList(m, at, m3, at3, p)
  {
  }

  lemma NothingNew(m: Memory, at: Labels, m1: Memory, m2: Memory, at3: Labels, hd: Ptr, v: Ptr, p: Ptr)
    requires hd in at.path && v in at.path && hd in at3.path && at3.path[hd] == at.path[hd]
    requires v in m.symbols && at.path[v] == at.path[hd] + [m.symbols[v]]
    requires m1.lists.Keys == m.lists.Keys && (forall q :: q in m.lists ==> q in at.path)
    requires SameOutside(m1, at, m2, at3, v) && p in m2.lists && !Under(at3, hd, p)
    ensures p in m.lists && !Under(at, hd, p)
  {
    if Under(at3, v, p) {
      PrefixOfPrefix(at3.path[hd], m.symbols[v], at3.path[p]);
    } else {
      assert p in m1.lists && SameList(m1, at, m2, at3, p);
    }
  }

  lemma OutsideFrom(m: Memory, at: Labels, m': Memory, at': Labels, hd: Ptr)
    requires hd in at.path && hd in at'.path && at'.path[hd] == at.path[hd]
    requires hd in m.symbols ==> hd in m'.symbols && m'.symbols[hd] == m.symbols[hd]
    requires forall p :: p in m.lists ==> p in at.path
    requires forall p :: p in m.lists && !Under(at, hd, p) ==> SameList(m, at, m', at', p)
    requires forall p :: p in m'.lists && !Under(at', hd, p) ==> p in m.lists && !Under(at, hd, p)
    ensures SameOutside(m, at, m', at', hd)
  {
    hide Under, SameList;
  }

  /** What was in one of the other kids still is. */
  lemma InTreeRest(m: Memory, at: Labels, m': Memory, at': Labels, hd: Ptr, depth: nat, x: Ptr)
    requires depth > 0 && Tree(m, at, hd, depth) && DistinctNames(View(m, at, hd, depth).kids) && m.lists[hd] != []
    requires Twig(m, at, hd, m.lists[hd][0], depth)
    requires hd in m'.lists && m'.lists[hd] == Without(m.lists[hd], 0) && hd in at'.path && at'.path[hd] == at.path[hd]
    requires forall p {:trigger p in m.lists} ::
               (p in m.lists && p in at.path && p != hd && !Under(at, m.lists[hd][0].value, p)) ==>
                 SameList(m, at, m', at', p)
    requires InTree(m, hd, depth, x)
    ensures InTree(m, m.lists[hd][0].value, depth - 1, x) || InTree(m', hd, depth, x)
  {
    var i :| 0 <= i < |m.lists[hd]| && InTree(m, m.lists[hd][i].value, depth - 1, x);
    if i > 0 {
      var kids, v, w := View(m, at, hd, depth).kids, m.lists[hd][0].value, m.lists[hd][i].value;
      KidOf(m, at, hd, i, depth);
      KidOf(m, at, hd, 0, depth);
      assert Find(kids, kids[i].name) == i && Find(kids, kids[0].name) == 0;
      KidsApart(at, hd, v, w, m.symbols[v], m.symbols[w]);
      NotUnderKid(m, at, hd, w);
      InTreeSame(m, at, m', at', w, depth - 1, x);
      assert m'.lists[hd][i - 1] == m.lists[hd][i];
    }
  }

  /** v is stored in a queue of the tree. */
  ghost predicate InTree(m: Memory, hd: Ptr, depth: nat, v: Ptr)
    decreases depth
  {
    hd in m.lists &&
    if depth == 0 then Contains(m.lists[hd], v)
    else exists i :: 0 <= i < |m.lists[hd]| && InTree(m, m.lists[hd][i].value, depth - 1, v)
  }

  lemma InTreeUp(m: Memory, hd: Ptr, k: nat, depth: nat, v: Ptr)
    requires depth > 0 && hd in m.lists && k < |m.lists[hd]|
    ensures InTree(m, m.lists[hd][k].value, depth - 1, v) ==> InTree(m, hd, depth, v)
  {
  }

  lemma EmptyTree(m: Memory, hd: Ptr, depth: nat, v: Ptr)
    requires hd in m.lists && m.lists[hd] == []
    ensures !InTree(m, hd, depth, v)
  {
  }

  lemma TopIn(m: Memory, at: Labels, hd: Ptr, depth: nat)
    requires Tree(m, at, hd, depth)
    ensures hd in m.lists && hd in at.path
  {
  }

  /** A value taken out of its list is stored nowhere else, so freeing it disturbs no list. */
  lemma ValueGone(m: Memory, at: Labels, roots: set<Ptr>, loose: set<Ptr>, hd: Ptr, k: nat)
    requires Owned(m, at, roots, loose) && hd in m.lists && k < |m.lists[hd]|
    ensures Stored(m, at, loose, hd, m.lists[hd][k].value) && DistinctValues(m.lists[hd])
    ensures forall h, i {:trigger m.lists[h][i]} :: h in m.lists && 0 <= i < |m.lists[h]| && (h != hd || i != k) ==>
              m.lists[h][i].value != m.lists[hd][k].value
  {
    assert DistinctValues(m.lists[hd]) && Stored(m, at, loose, hd, m.lists[hd][k].value);
    forall h, i | h in m.lists && 0 <= i < |m.lists[h]| && (h != hd || i != k)
      ensures m.lists[h][i].value != m.lists[hd][k].value
    {
      assert Stored(m, at, loose, h, m.lists[h][i].value);
    }
  }

  // ---- Queues

  /** A queue and its entries. */
  lemma QueueIs(m: Memory, at: Labels, hd: Ptr)
    requires Tree(m, at, hd, 0)
    ensures hd in m.lists && hd in at.path && View(m, at, hd, 0).Queue?
    ensures var entries := View(m, at, hd, 0).entries;
            && |entries| == |m.lists[hd]|
            && forall i {:trigger m.lists[hd][i]} {:trigger entries[i]} :: 0 <= i < |entries| ==>
                 && Known(m, at, m.lists[hd][i].value)
                 && entries[i] == Entry(RecordAt(m, m.lists[hd][i].value), m.lists[hd][i].refcount)
  {
  }

  /** The list at hd is a queue of the given entries. */
  lemma QueueChanged(m: Memory, at: Labels, hd: Ptr, entries: seq<Entry<Datum>>)
    requires hd in m.lists && hd in at.path && |entries| == |m.lists[hd]|
    requires forall i {:trigger m.lists[hd][i]} {:trigger entries[i]} :: 0 <= i < |entries| ==>
               && Known(m, at, m.lists[hd][i].value)
               && entries[i] == Entry(RecordAt(m, m.lists[hd][i].value), m.lists[hd][i].refcount)
    ensures Tree(m, at, hd, 0) && View(m, at, hd, 0) == Queue(entries)
  {
    assert View(m, at, hd, 0).entries == entries;
  }

  /** What is left of a queue is a queue, even if records were freed. */
  lemma QueueLeft(m: Memory, at: Labels, m': Memory, at': Labels, hd: Ptr, k: nat)
    requires Tree(m, at, hd, 0) && k < |m.lists[hd]|
    requires hd in m'.lists && m'.lists[hd] == Without(m.lists[hd], k) && hd in at'.path
    requires forall i {:trigger m'.lists[hd][i]} :: 0 <= i < |m'.lists[hd]| ==>
               (Known(m, at, m'.lists[hd][i].value) ==> Known(m', at', m'.lists[hd][i].value))
    ensures Tree(m', at', hd, 0) && View(m', at', hd, 0).Queue?
  {
    forall i | 0 <= i < |m'.lists[hd]| ensures Known(m', at', m'.lists[hd][i].value) {
      assert m'.lists[hd][i] == m.lists[hd][if i < k then i else i + 1];
    }
  }

  /** Only the list at hd changed, and no record. */
  lemma LeafLists(m: Memory, at: Labels, m': Memory, at': Labels, hd: Ptr, nodes: seq<ListNode>)
    requires hd in m.lists && hd in at.path && forall p :: p in m.lists ==> p in at.path
    requires m'.lists == m.lists[hd := nodes] && m'.symbols == m.symbols && m'.records == m.records
    requires at'.path == at.path && at'.freed == at.freed
    ensures SameOutside(m, at, m', at', hd)
  {
    LeafOutside(m, at, m', at', hd, nodes);
  }

  /** Kid k of a tree, with all that is needed to go down into it. */
  lemma KidBelow(m: Memory, at: Labels, hd: Ptr, k: nat, depth: nat)
    requires depth > 0 && Tree(m, at, hd, depth) && k < |m.lists[hd]|
    ensures View(m, at, hd, depth).Symbols? && k < |View(m, at, hd, depth).kids|
    ensures Twig(m, at, hd, m.lists[hd][k], depth) && hd in m.lists && hd in at.path
    ensures var v := m.lists[hd][k].value;
            && v in m.symbols && v in m.lists && v in at.path && at.path[v] == at.path[hd] + [m.symbols[v]]
            && Tree(m, at, v, depth - 1)
            && View(m, at, hd, depth).kids[k] == Kid(m.symbols[v], View(m, at, v, depth - 1))
            && Size(View(m, at, v, depth - 1)) == |m.lists[v]|
  {
    KidOf(m, at, hd, k, depth);
  }

  lemma KidsWellFormed<V>(s: Store<V>, depth: nat)
    requires depth > 0 && WellFormed(s, depth)
    ensures s.Symbols? && DistinctNames(s.kids)
    ensures forall i :: 0 <= i < |s.kids| ==> WellFormed(s.kids[i].sub, depth - 1) && Size(s.kids[i].sub) > 0
  {
  }

  lemma SizeIs(m: Memory, at: Labels, hd: Ptr, depth: nat)
    requires Tree(m, at, hd, depth)
    ensures hd in m.lists && hd in at.path && Size(View(m, at, hd, depth)) == |m.lists[hd]|
    ensures depth == 0 ==> View(m, at, hd, depth).Queue?
  {
  }

  lemma TopOf(m: Memory, at: Labels, hd: Ptr, depth: nat)
    requires depth > 0 && Tree(m, at, hd, depth)
    ensures hd in m.lists && hd in at.path
    ensures View(m, at, hd, depth).Symbols? && |m.lists[hd]| == |View(m, at, hd, depth).kids|
  {
  }

  lemma SweepStart<V>(s: Store<V>, depth: nat)
    requires depth > 0 && WellFormed(s, depth)
    ensures s.Symbols? && DistinctNames(s.kids) && s.kids[..0] == [] && SweepKids(s.kids[..0]) == []
    ensures forall k :: 0 <= k < |s.kids| ==> WellFormed(s.kids[k].sub, depth - 1)
    ensures Sweep(s) == Symbols(SweepKids(s.kids))
  {
  }

  /** The next kid moves from the part to be swept to the part that is. */
  lemma SweepRound<V>(kids: seq<Kid<V>>, done: nat, now: seq<Kid<V>>, now': seq<Kid<V>>, kept: bool)
    requires done < |kids| && now == SweepKids(kids[..done]) + kids[done..] && DistinctNames(now)
    requires kept <==> Size(Sweep(kids[done].sub)) > 0
    requires var i := |SweepKids(kids[..done])|;
             now' == if kept then now[i := Kid(kids[done].name, Sweep(kids[done].sub))] else now[..i] + now[i + 1..]
    ensures now' == SweepKids(kids[..done + 1]) + kids[done + 1..] && DistinctNames(now')
    ensures |SweepKids(kids[..done + 1])| == |SweepKids(kids[..done])| + if kept then 1 else 0
  {
    hide Sweep, SweepKids, Find, DistinctNames;
    var i := |SweepKids(kids[..done])|;
    assert now[i] == kids[done];
    SweepKidsAppend(kids[..done], kids[done]);
    assert kids[..done + 1] == kids[..done] + [kids[done]];
    if kept {
      DistinctReplace(now, i, Sweep(kids[done].sub));
    } else {
      DistinctRemove(now, i);
    }
  }

  lemma {:induction false} SweepKidsAppend<V>(kids: seq<Kid<V>>, kid: Kid<V>)
    ensures SweepKids(kids + [kid]) ==
            SweepKids(kids) + (if Size(Sweep(kid.sub)) == 0 then [] else [Kid(kid.name, Sweep(kid.sub))])
    decreases |kids|
  {
    hide Sweep, Size;
    if kids == [] {
      assert kids + [kid] == [kid];
    } else {
      SweepKidsAppend(kids[1..], kid);
      assert (kids + [kid])[1..] == kids[1..] + [kid] && (kids + [kid])[0] == kids[0];
    }
  }

  /** Records and map values may be freed; records are not changed. */
  ghost predicate Shrinks(m: Memory, m': Memory) {
    && (forall r :: r in m'.records ==> r in m.records && m'.records[r] == m.records[r])
    && m'.symbols.Keys <= m.symbols.Keys
  }

  /** Kid k of the list at hd is the one for name in store s, which got an empty one if it had none. */
  ghost predicate FoundAt(s: Store<Datum>, name: string, m: Memory, at: Labels, hd: Ptr, k: nat, depth: nat)
    requires depth > 0 && s.Symbols?
  {
    && Tree(m, at, hd, depth) && k == Find(s.kids, name) && k < |m.lists[hd]|
    && Twig(m, at, hd, m.lists[hd][k], depth) && m.symbols[m.lists[hd][k].value] == name
    && DistinctNames(View(m, at, hd, depth).kids)
    && View(m, at, hd, depth).kids == (if k < |s.kids| then s.kids else s.kids + [Kid(name, EmptyStore(depth - 1))])
    && WellFormed(View(m, at, m.lists[hd][k].value, depth - 1), depth - 1)
  }

  lemma FoundThere(m: Memory, at: Labels, hd: Ptr, name: string, k: nat, depth: nat)
    requires depth > 0 && Tree(m, at, hd, depth) && WellFormed(View(m, at, hd, depth), depth)
    requires k < |m.lists[hd]| && View(m, at, hd, depth).Symbols? && k == Find(View(m, at, hd, depth).kids, name)
    ensures FoundAt(View(m, at, hd, depth), name, m, at, hd, k, depth)
  {
    hide Tree, View, KidView, WellFormed, DistinctNames, Find;
    KidBelow(m, at, hd, k, depth);
    KidsWellFormed(View(m, at, hd, depth), depth);
  }

  lemma FoundNew(s: Store<Datum>, name: string, m: Memory, at: Labels, hd: Ptr, p: Ptr, node: Ptr, k: nat, depth: nat)
    requires depth > 0 && s.Symbols? && DistinctNames(s.kids) && k == Find(s.kids, name) == |s.kids|
    requires Tree(m, at, hd, depth) && View(m, at, hd, depth) == Symbols(s.kids + [Kid(name, EmptyStore(depth - 1))])
    requires |m.lists[hd]| == k + 1 && m.lists[hd][k] == ListNode(node, p, 1) && hd in at.path
    requires Twig(m, at, hd, m.lists[hd][k], depth) && View(m, at, p, depth - 1) == EmptyStore(depth - 1)
    requires m.symbols[p] == name
    ensures FoundAt(s, name, m, at, hd, k, depth)
  {
    hide Tree, View, KidView, DistinctNames, Find, Twig;
    DistinctAppend(s.kids, Kid(name, EmptyStore(depth - 1)));
  }

  /** What is needed to go down to the kid that was found. */
  lemma FoundKid(s: Store<Datum>, name: string, m: Memory, at: Labels, hd: Ptr, k: nat, depth: nat)
    requires depth > 0 && s.Symbols? && FoundAt(s, name, m, at, hd, k, depth)
    ensures hd in m.lists && hd in at.path && k < |m.lists[hd]|
    ensures var v := m.lists[hd][k].value;
            && v in m.symbols && v in at.path && at.path[v] == at.path[hd] + [m.symbols[v]]
            && Tree(m, at, v, depth - 1) && WellFormed(View(m, at, v, depth - 1), depth - 1)
  {
  }

  /** The recursive step of add_symbol_value, seen on the views. */
  lemma AddStep(s: Store<Datum>, names: seq<string>, e: Entry<Datum>,
                m: Memory, at: Labels, m': Memory, at': Labels, hd: Ptr, k: nat)
    requires names != [] && WellFormed(s, |names|) && FoundAt(s, names[0], m, at, hd, k, |names|)
    requires var v := m.lists[hd][k].value; SameOutside(m, at, m', at', v) && Tree(m', at', v, |names| - 1)
    requires View(m', at', m.lists[hd][k].value, |names| - 1) ==
             Add(View(m, at, m.lists[hd][k].value, |names| - 1), names[1..], e)
    ensures Tree(m', at', hd, |names|) && View(m', at', hd, |names|) == Add(s, names, e)
    ensures hd in m.lists
  {
    hide SameOutside, SameList, WellFormed, View, KidView, Tree, Twig, Add, Find, DistinctNames;
    TopOf(m, at, hd, |names|);
    var v, depth := m.lists[hd][k].value, |names|;
    KidBelow(m, at, hd, k, depth);
    TreeAfterKid(m, at, m', at', hd, k, depth);
    AddUnfold(s, names, e, k, View(m, at, hd, depth).kids, View(m, at, v, depth - 1));
  }

  /** add, with the kid it goes down to already in place. */
  lemma AddUnfold(s: Store<Datum>, names: seq<string>, e: Entry<Datum>, k: nat, kids: seq<Kid<Datum>>,
                  sub: Store<Datum>)
    requires names != [] && WellFormed(s, |names|) && k == Find(s.kids, names[0]) && k < |kids|
    requires kids == if k < |s.kids| then s.kids else s.kids + [Kid(names[0], EmptyStore(|names| - 1))]
    requires kids[k] == Kid(names[0], sub) && WellFormed(sub, |names| - 1)
    ensures Add(s, names, e) == Symbols(kids[k := Kid(names[0], Add(sub, names[1..], e))])
  {
    hide DistinctNames, Find;
    assert k == |s.kids| ==> kids[k := Kid(names[0], Add(sub, names[1..], e))] ==
                             s.kids + [Kid(names[0], Add(sub, names[1..], e))];
  }

  /** Only the list at hd changed, and no record of the others did. */
  lemma LeafOutside(m: Memory, at: Labels, m': Memory, at': Labels, hd: Ptr, nodes: seq<ListNode>)
    requires hd in m.lists && hd in at.path && forall p :: p in m.lists ==> p in at.path
    requires m'.lists == m.lists[hd := nodes] && m'.symbols == m.symbols && at'.path == at.path
    requires forall h, i {:trigger m.lists[h][i]} :: h in m.lists && h != hd && 0 <= i < |m.lists[h]| ==>
               SameRecord(m, at, m', at', m.lists[h][i].value)
    ensures SameOutside(m, at, m', at', hd)
  {
    assert Under(at, hd, hd);
  }

  /** Freeing a loose record disturbs no list. */
  lemma LooseFreed(m: Memory, at: Labels, roots: set<Ptr>, loose: set<Ptr>, v: Ptr, m': Memory)
    requires Owned(m, at, roots, loose) && v in loose && m' == m.(records := m.records - {v})
    ensures forall h, i {:trigger m.lists[h][i]} :: h in m.lists && 0 <= i < |m.lists[h]| ==>
              SameRecord(m, at, m', at, m.lists[h][i].value)
  {
    forall h, i | h in m.lists && 0 <= i < |m.lists[h]| ensures m.lists[h][i].value != v {
      assert Stored(m, at, loose, h, m.lists[h][i].value);
    }
  }

  lemma SameOutsideSelf(m: Memory, at: Labels, hd: Ptr)
    requires hd in at.path && forall p :: p in m.lists ==> p in at.path
    ensures SameOutside(m, at, m, at, hd)
  {
  }

  /** A change below a kid, after a change below its parent, is a change below the parent. */
  lemma SameOutsideKid(m: Memory, at: Labels, m1: Memory, at1: Labels, m2: Memory, at2: Labels, hd: Ptr, v: Ptr)
    requires hd in at.path && SameOutside(m, at, m1, at1, hd) && hd in m1.lists
    requires v in m1.symbols && v in at1.path && at1.path[v] == at1.path[hd] + [m1.symbols[v]]
    requires SameOutside(m1, at1, m2, at2, v)
    ensures SameOutside(m, at, m2, at2, hd)
  {
    NotUnderKid(m1, at1, hd, v);
    UnderKid(m1, at1, hd, v);
    assert SameList(m1, at1, m2, at2, hd);
    forall p | p in m.lists && p in at.path && !Under(at, hd, p) ensures SameList(m, at, m2, at2, p) {
      assert SameList(m, at, m1, at1, p);
      assert !Under(at1, v, p);
    }
    forall p | p in m2.lists && !Under(at2, hd, p) ensures p in m.lists && p in at.path && !Under(at, hd, p) {
      if Under(at2, v, p) {
        PrefixOfPrefix(at2.path[hd], m1.symbols[v], at2.path[p]);
      } else {
        assert SameList(m1, at1, m2, at2, p);
      }
    }
  }

  lemma SameOutsideTwice(m: Memory, at: Labels, m1: Memory, at1: Labels, m2: Memory, at2: Labels, hd: Ptr)
    requires hd in at.path && SameOutside(m, at, m1, at1, hd) && SameOutside(m1, at1, m2, at2, hd)
    ensures SameOutside(m, at, m2, at2, hd)
  {
    forall p | p in m.lists && p in at.path && !Under(at, hd, p) ensures SameList(m, at, m2, at2, p) {
      assert SameList(m, at, m1, at1, p);
    }
    forall p | p in m2.lists && !Under(at2, hd, p) ensures p in m.lists && p in at.path && !Under(at, hd, p) {
      assert p in m1.lists && !Under(at1, hd, p);
    }
  }

  lemma PrefixOfPrefix(s: seq<string>, x: string, t: seq<string>)
    requires s + [x] <= t
    ensures s <= t
  {
    assert (s + [x])[..|s|] == s;
    assert t[..|s|] == t[..|s| + 1][..|s|];
  }

  lemma FreshAddress(used: set<Ptr>)
    ensures exists p: Ptr :: p !in used
  {
    var bound := Above(used);
    assert bound !in used;
  }

  lemma Above(used: set<Ptr>) returns (bound: Ptr)
    ensures forall p :: p in used ==> p < bound
  {
    if used == {} {
      bound := 0;
    } else {
      var p :| p in used;
      var b := Above(used - {p});
      bound := if p < b then b else p + 1;
      forall q | q in used ensures q < bound {
        assert q != p ==> q in used - {p};
      }
    }
  }
}
