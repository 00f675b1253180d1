// The symbol store as a value: what add_symbol_value, get_symbol_value,
// remove_always_return_values and check_for_leftover_values compute, and what a user of the
// store can rely on.
module Expectations {
  import opened Sequences
  import opened Wrappers

  /** What a declaration records: a mock's value with its type tag, a parameter check, or the
      function whose call is expected. */
  datatype Datum =
    | Returned(tag: Option<string>, value: int)
    | Checked(accepts: int -> bool)
    | Ordered(callee: string)

  /** A stored value and its count: n > 0 is "exactly n more", -1 "at least once", -2 and below
      "any number of times". */
  datatype Entry<+V> = Entry(value: V, count: int)

  /** The symbol tree: queues of entries at the leaves, symbol names on the way down. */
  datatype Store<+V> = Queue(entries: seq<Entry<V>>) | Symbols(kids: seq<Kid<V>>)

  datatype Kid<+V> = Kid(name: string, sub: Store<V>)

  function Size<V>(s: Store<V>): nat {
    if s.Queue? then |s.entries| else |s.kids|
  }

  function EmptyStore<V>(depth: nat): (s: Store<V>)
    ensures WellFormed(s, depth) && Size(s) == 0
  {
    if depth == 0 then Queue([]) else Symbols([])
  }

  /** Every path has the same length; sibling names are distinct; nothing below a name is empty. */
  ghost predicate WellFormed<V>(s: Store<V>, depth: nat) {
    if depth == 0 then s.Queue? else
    && s.Symbols?
    && DistinctNames(s.kids)
    && (forall i :: 0 <= i < |s.kids| ==> WellFormed(s.kids[i].sub, depth - 1) && Size(s.kids[i].sub) > 0)
  }

  /** No two siblings have the same name: each is found at its own position. */
  ghost predicate DistinctNames<V>(kids: seq<Kid<V>>) {
    forall i {:trigger kids[i]} :: 0 <= i < |kids| ==> Find(kids, kids[i].name) == i
  }

  /** The position of the first kid with the given name, |kids| if there is none. */
  function Find<V>(kids: seq<Kid<V>>, name: string): (k: nat)
    ensures k <= |kids|
    ensures forall i :: 0 <= i < k ==> kids[i].name != name
    ensures k < |kids| ==> kids[k].name == name
  {
    if kids == [] || kids[0].name == name then 0 else 1 + Find(kids[1..], name)
  }

  // ---- The four operations

  function Add<V>(s: Store<V>, path: seq<string>, e: Entry<V>): Store<V>
    requires WellFormed(s, |path|)
    decreases |path|
  {
    if path == [] then Queue(s.entries + [e]) else
    var k := Find(s.kids, path[0]);
    if k == |s.kids|
    then Symbols(s.kids + [Kid(path[0], Add(EmptyStore(|path| - 1), path[1..], e))])
    else Symbols(s.kids[k := Kid(path[0], Add(s.kids[k].sub, path[1..], e))])
  }

  /** A queue after its first entry was handed out. */
  function Consume<V>(q: seq<Entry<V>>): seq<Entry<V>>
    requires q != []
  {
    if q[0].count - 1 == 0 then q[1..]
    else if q[0].count > -2 then q[0 := q[0].(count := q[0].count - 1)]
    else q
  }

  /** rc is the old count of the entry handed out, 0 if the lookup failed. */
  datatype Got<+V> = Got(rc: int, value: Option<V>, store: Store<V>)

  function Get<V>(s: Store<V>, path: seq<string>): Got<V>
    requires WellFormed(s, |path|)
    requires path == [] ==> Size(s) > 0
    decreases |path|
  {
    if path == [] then Got(s.entries[0].count, Some(s.entries[0].value), Queue(Consume(s.entries))) else
    var k := Find(s.kids, path[0]);
    if k == |s.kids| then Got(0, None, s) else
    var g := Get(s.kids[k].sub, path[1..]);
    g.(store := Symbols(if Size(g.store) == 0
                        then s.kids[..k] + s.kids[k + 1..]
                        else s.kids[k := Kid(path[0], g.store)]))
  }

  /** The end-of-test pass: the first entry of every queue goes if its count is below -1. */
  function Sweep<V>(s: Store<V>): Store<V>
    decreases s, 0
  {
    match s
    case Queue(q) => Queue(SweepQueue(q))
    case Symbols(kids) => Symbols(SweepKids(kids))
  }

  function SweepQueue<V>(q: seq<Entry<V>>): seq<Entry<V>> {
    if q != [] && q[0].count < -1 then q[1..] else q
  }

  function SweepKids<V>(kids: seq<Kid<V>>): seq<Kid<V>>
    decreases kids, 1
  {
    if kids == [] then [] else
    var sub := Sweep(kids[0].sub);
    (if Size(sub) == 0 then [] else [Kid(kids[0].name, sub)]) + SweepKids(kids[1..])
  }

  /** The number of top-level symbols that still hold something. */
  function Leftovers<V>(s: Store<V>): nat
    requires s.Symbols?
    decreases |s.kids|
  {
    if s.kids == [] then 0
    else (if Size(s.kids[0].sub) > 0 then 1 else 0) + Leftovers(Symbols(s.kids[1..]))
  }

  /** All that a store holds, in the order of its lists: what the message about leftovers shows. */
  function AllValues<V>(s: Store<V>): seq<V>
    decreases s, 0
  {
    if s.Queue? then Values(s.entries) else AllKidsValues(s.kids)
  }

  function AllKidsValues<V>(kids: seq<Kid<V>>): seq<V>
    decreases kids, 1
  {
    if kids == [] then [] else AllValues(kids[0].sub) + AllKidsValues(kids[1..])
  }

  function Values<V>(entries: seq<Entry<V>>): (r: seq<V>)
    ensures |r| == |entries| && forall i :: 0 <= i < |entries| ==> r[i] == entries[i].value
  {
    if entries == [] then [] else [entries[0].value] + Values(entries[1..])
  }

  lemma EmptyValues<V>(s: Store<V>, depth: nat)
    requires WellFormed(s, depth)
    ensures Size(s) == 0 ==> AllValues(s) == []
    ensures depth == 0 ==> s.Queue? && AllValues(s) == Values(s.entries)
  {
  }

  /** count and left are what the kids before position i contribute. */
  ghost predicate Counted<V>(kids: seq<Kid<V>>, i: nat, count: nat, left: seq<V>) {
    && i <= |kids|
    && count + Leftovers(Symbols(kids[i..])) == Leftovers(Symbols(kids))
    && left + AllKidsValues(kids[i..]) == AllKidsValues(kids)
  }

  lemma CountStarts<V>(kids: seq<Kid<V>>)
    ensures Counted(kids, 0, 0, [])
  {
    assert kids[0..] == kids;
  }

  lemma CountNext<V>(kids: seq<Kid<V>>, i: nat, count: nat, left: seq<V>)
    requires i < |kids| && Counted(kids, i, count, left)
    ensures Counted(kids, i + 1, count + if Size(kids[i].sub) > 0 then 1 else 0, left + AllValues(kids[i].sub))
  {
    assert kids[i..][1..] == kids[i + 1..];
    Regroup(left, AllValues(kids[i].sub), AllKidsValues(kids[i + 1..]));
  }

  lemma CountEnds<V>(kids: seq<Kid<V>>, count: nat, left: seq<V>)
    requires Counted(kids, |kids|, count, left)
    ensures count == Leftovers(Symbols(kids)) && left == AllValues(Symbols(kids))
  {
  }

  // ---- The store is a finite map from paths to non-empty queues

  function Lookup<V>(s: Store<V>, path: seq<string>): seq<Entry<V>>
    requires WellFormed(s, |path|)
    decreases |path|
  {
    if path == [] then s.entries else
    var k := Find(s.kids, path[0]);
    if k == |s.kids| then [] else Lookup(s.kids[k].sub, path[1..])
  }

  /** Find is determined by what it promises. */
  lemma FindIs<V>(kids: seq<Kid<V>>, name: string, k: nat)
    requires k <= |kids|
    requires forall i :: 0 <= i < k ==> kids[i].name != name
    requires k < |kids| ==> kids[k].name == name
    ensures Find(kids, name) == k
  {
  }

  lemma FindAppend<V>(kids: seq<Kid<V>>, kid: Kid<V>, name: string)
    requires Find(kids, kid.name) == |kids|
    ensures Find(kids + [kid], name) ==
              if name == kid.name then |kids| else if Find(kids, name) == |kids| then |kids| + 1 else Find(kids, name)
  {
    var j := Find(kids, name);
    FindIs(kids + [kid], name, if name != kid.name && j == |kids| then j + 1 else j);
  }

  lemma FindReplace<V>(kids: seq<Kid<V>>, k: nat, sub: Store<V>, name: string)
    requires k < |kids|
    ensures Find(kids[k := Kid(kids[k].name, sub)], name) == Find(kids, name)
  {
    FindIs(kids[k := Kid(kids[k].name, sub)], name, Find(kids, name));
  }

  lemma FindRemove<V>(kids: seq<Kid<V>>, k: nat, name: string)
    requires k < |kids| && DistinctNames(kids)
    ensures var j := Find(kids, name);
            Find(kids[..k] + kids[k + 1..], name) == if j == k then |kids| - 1 else if j < k then j else j - 1
  {
    hide Find, DistinctNames;
    RestAt(kids, k, kids[..k] + kids[k + 1..]);
    FindRest(kids, k, kids[..k] + kids[k + 1..], name);
  }

  lemma FindRest<V>(kids: seq<Kid<V>>, k: nat, rest: seq<Kid<V>>, name: string)
    requires k < |kids| && DistinctNames(kids) && |rest| == |kids| - 1
    requires forall i :: 0 <= i < |rest| ==> rest[i] == kids[if i < k then i else i + 1]
    ensures var j := Find(kids, name); Find(rest, name) == if j == k then |rest| else if j < k then j else j - 1
  {
    hide Find;
    var j := Find(kids, name);
    var j' := if j == k then |rest| else if j < k then j else j - 1;
    forall i | 0 <= i < j' ensures rest[i].name != name {
      var l := if i < k then i else i + 1;
      assert rest[i] == kids[l] && Find(kids, kids[l].name) == l;
    }
    FindIs(rest, name, j');
  }

  lemma DistinctAppend<V>(kids: seq<Kid<V>>, kid: Kid<V>)
    requires DistinctNames(kids) && Find(kids, kid.name) == |kids|
    ensures DistinctNames(kids + [kid])
  {
    forall i | 0 <= i < |kids| + 1 ensures Find(kids + [kid], (kids + [kid])[i].name) == i {
      FindAppend(kids, kid, (kids + [kid])[i].name);
    }
  }

  lemma DistinctReplace<V>(kids: seq<Kid<V>>, k: nat, sub: Store<V>)
    requires k < |kids| && DistinctNames(kids)
    ensures DistinctNames(kids[k := Kid(kids[k].name, sub)])
  {
    forall i | 0 <= i < |kids| ensures Find(kids[k := Kid(kids[k].name, sub)], kids[i].name) == i {
      FindReplace(kids, k, sub, kids[i].name);
    }
  }

  lemma DistinctRemove<V>(kids: seq<Kid<V>>, k: nat)
    requires k < |kids| && DistinctNames(kids)
    ensures DistinctNames(kids[..k] + kids[k + 1..])
  {
    var rest := kids[..k] + kids[k + 1..];
    forall i | 0 <= i < |rest| ensures Find(rest, rest[i].name) == i {
      assert rest[i] == kids[if i < k then i else i + 1];
      FindRemove(kids, k, rest[i].name);
    }
  }

  lemma {:induction false} LookupEmpty<V>(path: seq<string>)
    ensures WellFormed(EmptyStore<V>(|path|), |path|)
    ensures Lookup(EmptyStore<V>(|path|), path) == []
  {
  }

  // Appending, replacing or removing one kid keeps the shape and moves no other queue.

  lemma ShapeAppend<V>(kids: seq<Kid<V>>, kid: Kid<V>, depth: nat)
    requires depth > 0 && WellFormed(Symbols(kids), depth) && Find(kids, kid.name) == |kids|
    requires WellFormed(kid.sub, depth - 1) && Size(kid.sub) > 0
    ensures WellFormed(Symbols(kids + [kid]), depth)
  {
    DistinctAppend(kids, kid);
  }

  lemma ShapeReplace<V>(kids: seq<Kid<V>>, k: nat, sub: Store<V>, depth: nat)
    requires depth > 0 && WellFormed(Symbols(kids), depth) && k < |kids|
    requires WellFormed(sub, depth - 1) && Size(sub) > 0
    ensures WellFormed(Symbols(kids[k := Kid(kids[k].name, sub)]), depth)
  {
    DistinctReplace(kids, k, sub);
  }

  lemma ShapeRemove<V>(kids: seq<Kid<V>>, k: nat, depth: nat)
    requires depth > 0 && WellFormed(Symbols(kids), depth) && k < |kids|
    ensures WellFormed(Symbols(kids[..k] + kids[k + 1..]), depth)
  {
    DistinctRemove(kids, k);
  }

  lemma LookupReplace<V>(kids: seq<Kid<V>>, k: nat, sub: Store<V>, path: seq<string>)
    requires path != [] && WellFormed(Symbols(kids), |path|) && k < |kids|
    requires WellFormed(sub, |path| - 1) && Size(sub) > 0
    ensures WellFormed(Symbols(kids[k := Kid(kids[k].name, sub)]), |path|)
    ensures Lookup(Symbols(kids[k := Kid(kids[k].name, sub)]), path) ==
              if path[0] == kids[k].name then Lookup(sub, path[1..]) else Lookup(Symbols(kids), path)
  {
    ShapeReplace(kids, k, sub, |path|);
    FindReplace(kids, k, sub, path[0]);
  }

  /** Two stores that hold the same kid under the first name of a path agree on that path. */
  lemma LookupSame<V>(kids: seq<Kid<V>>, kids': seq<Kid<V>>, path: seq<string>)
    requires path != [] && WellFormed(Symbols(kids), |path|) && WellFormed(Symbols(kids'), |path|)
    requires var j, j' := Find(kids, path[0]), Find(kids', path[0]);
             if j == |kids| then j' == |kids'| else j' < |kids'| && kids'[j'] == kids[j]
    ensures Lookup(Symbols(kids'), path) == Lookup(Symbols(kids), path)
  {
  }

  lemma LookupRemove<V>(kids: seq<Kid<V>>, k: nat, rest: seq<Kid<V>>, path: seq<string>)
    requires path != [] && WellFormed(Symbols(kids), |path|) && k < |kids|
    requires rest == kids[..k] + kids[k + 1..]
    ensures WellFormed(Symbols(rest), |path|)
    ensures Lookup(Symbols(rest), path) == if path[0] == kids[k].name then [] else Lookup(Symbols(kids), path)
  {
    ShapeRemove(kids, k, |path|);
    FoundInRest(kids, k, rest, path[0]);
    hide *;
    if path[0] == kids[k].name {
      LookupNone(rest, path);
    } else {
      LookupSame(kids, rest, path);
    }
  }

  lemma LookupNone<V>(kids: seq<Kid<V>>, path: seq<string>)
    requires path != [] && WellFormed(Symbols(kids), |path|) && Find(kids, path[0]) == |kids|
    ensures Lookup(Symbols(kids), path) == []
  {
  }

  /** A name is found in rest where it was found in kids, unless it is that of the kid that is gone. */
  lemma FoundInRest<V>(kids: seq<Kid<V>>, k: nat, rest: seq<Kid<V>>, name: string)
    requires DistinctNames(kids) && k < |kids| && rest == kids[..k] + kids[k + 1..]
    ensures var j, j' := Find(kids, name), Find(rest, name);
            if name == kids[k].name || j == |kids| then j' == |rest| else j' < |rest| && rest[j'] == kids[j]
  {
    assert Find(kids, kids[k].name) == k;
    hide Find, DistinctNames;
    RestAt(kids, k, rest);
    FindRest(kids, k, rest, name);
  }

  lemma PathSplit(p: seq<string>, q: seq<string>)
    requires |p| == |q| > 0
    ensures p == q <==> p[0] == q[0] && p[1..] == q[1..]
  {
    assert p == [p[0]] + p[1..] && q == [q[0]] + q[1..];
  }

  /** add keeps the shape and leaves something at its path. */
  lemma {:induction false} AddShape<V>(s: Store<V>, path: seq<string>, e: Entry<V>)
    requires WellFormed(s, |path|)
    ensures WellFormed(Add(s, path, e), |path|) && Size(Add(s, path, e)) > 0
    decreases |path|
  {
    hide Find, DistinctNames;
    if path != [] {
      var k := Find(s.kids, path[0]);
      if k == |s.kids| {
        LookupEmpty<V>(path[1..]);
        AddShape(EmptyStore<V>(|path| - 1), path[1..], e);
        ShapeAppend(s.kids, Kid(path[0], Add(EmptyStore<V>(|path| - 1), path[1..], e)), |path|);
      } else {
        AddShape(s.kids[k].sub, path[1..], e);
        ShapeReplace(s.kids, k, Add(s.kids[k].sub, path[1..], e), |path|);
      }
    }
  }

  /** add appends to exactly one queue. */
  lemma {:induction false} AddMeaning<V>(s: Store<V>, path: seq<string>, e: Entry<V>, other: seq<string>)
    requires WellFormed(s, |path|) && |other| == |path|
    ensures WellFormed(Add(s, path, e), |path|)
    ensures Lookup(Add(s, path, e), other) == if other == path then Lookup(s, path) + [e] else Lookup(s, other)
    decreases |path|
  {
    hide *;
    AddShape(s, path, e);
    if path == [] {
      AddLeaf(s, e);
    } else {
      IsSymbols(s, |path|);
      var k := Find(s.kids, path[0]);
      AddUnfold(s, path, e, k);
      PathSplit(other, path);
      if k == |s.kids| {
        var empty := EmptyStore<V>(|path| - 1);
        EmptyLookups<V>(path[1..], other[1..]);
        AddMeaning(empty, path[1..], e, other[1..]);
        LookupAppend(s.kids, Kid(path[0], Add(empty, path[1..], e)), other);
        LookupMissing(s, other, k);
      } else {
        AddMeaning(s.kids[k].sub, path[1..], e, other[1..]);
        LookupReplace(s.kids, k, Add(s.kids[k].sub, path[1..], e), other);
        LookupPresent(s, other, k);
      }
    }
  }

  lemma AddLeaf<V>(s: Store<V>, e: Entry<V>)
    requires WellFormed(s, 0)
    ensures Lookup(Add(s, [], e), []) == Lookup(s, []) + [e]
  {
  }

  lemma IsSymbols<V>(s: Store<V>, depth: nat)
    requires depth > 0 && WellFormed(s, depth)
    ensures s.Symbols?
  {
  }

  /** One level of add. */
  lemma AddUnfold<V>(s: Store<V>, path: seq<string>, e: Entry<V>, k: nat)
    requires path != [] && WellFormed(s, |path|) && k == Find(s.kids, path[0])
    ensures s == Symbols(s.kids)
    ensures k == |s.kids| ==>
              && WellFormed(EmptyStore<V>(|path| - 1), |path| - 1) && Lookup(s, path) == []
              && var sub := Add(EmptyStore<V>(|path| - 1), path[1..], e);
                 && Add(s, path, e) == Symbols(s.kids + [Kid(path[0], sub)])
                 && WellFormed(sub, |path| - 1) && Size(sub) > 0
    ensures k < |s.kids| ==>
              && s.kids[k].name == path[0] && WellFormed(s.kids[k].sub, |path| - 1)
              && Lookup(s, path) == Lookup(s.kids[k].sub, path[1..])
              && var sub := Add(s.kids[k].sub, path[1..], e);
                 && Add(s, path, e) == Symbols(s.kids[k := Kid(path[0], sub)])
                 && WellFormed(sub, |path| - 1) && Size(sub) > 0
  {
    hide DistinctNames, Find;
    if k == |s.kids| {
      AddShape(EmptyStore<V>(|path| - 1), path[1..], e);
    } else {
      AddShape(s.kids[k].sub, path[1..], e);
    }
  }

  lemma EmptyLookups<V>(path: seq<string>, other: seq<string>)
    requires |path| == |other|
    ensures Lookup(EmptyStore<V>(|path|), path) == Lookup(EmptyStore<V>(|path|), other) == []
  {
    LookupEmpty<V>(path);
    LookupEmpty<V>(other);
  }

  lemma LookupMissing<V>(s: Store<V>, path: seq<string>, k: nat)
    requires path != [] && WellFormed(s, |path|) && k == |s.kids|
    ensures Find(s.kids, path[0]) == k ==> Lookup(s, path) == []
  {
    hide DistinctNames, Find;
  }

  lemma LookupPresent<V>(s: Store<V>, path: seq<string>, k: nat)
    requires path != [] && WellFormed(s, |path|) && k < |s.kids|
    ensures WellFormed(s.kids[k].sub, |path| - 1)
    ensures s.kids[k].name == path[0] ==> Lookup(s, path) == Lookup(s.kids[k].sub, path[1..])
  {
    hide Find;
    assert Find(s.kids, s.kids[k].name) == k;
  }

  lemma LookupAppend<V>(kids: seq<Kid<V>>, kid: Kid<V>, path: seq<string>)
    requires path != [] && WellFormed(Symbols(kids), |path|) && Find(kids, kid.name) == |kids|
    requires WellFormed(kid.sub, |path| - 1) && Size(kid.sub) > 0
    ensures WellFormed(Symbols(kids + [kid]), |path|)
    ensures Lookup(Symbols(kids + [kid]), path) ==
              if path[0] == kid.name then Lookup(kid.sub, path[1..]) else Lookup(Symbols(kids), path)
  {
    ShapeAppend(kids, kid, |path|);
    FindAppend(kids, kid, path[0]);
    hide Find, DistinctNames;
  }

  /** get keeps the shape; a failed lookup changes nothing, a successful one hands out the front. */
  lemma {:induction false} GetShape<V>(s: Store<V>, path: seq<string>)
    requires WellFormed(s, |path|)
    requires path == [] ==> Size(s) > 0
    ensures WellFormed(Get(s, path).store, |path|)
    ensures Lookup(s, path) == [] ==> Get(s, path) == Got(0, None, s)
    ensures Lookup(s, path) != [] ==>
              && Get(s, path).rc == Lookup(s, path)[0].count
              && Get(s, path).value == Some(Lookup(s, path)[0].value)
    decreases |path|
  {
    hide Find, DistinctNames, Consume, Get, Lookup, WellFormed;
    if path == [] {
      GetLeaf(s);
    } else {
      HasKids(s, |path|);
      var k := Find(s.kids, path[0]);
      GetUnfold(s, path, k);
      if k < |s.kids| {
        GetShape(s.kids[k].sub, path[1..]);
        var sub' := Get(s.kids[k].sub, path[1..]).store;
        if Size(sub') == 0 {
          ShapeRemove(s.kids, k, |path|);
        } else {
          ShapeReplace(s.kids, k, sub', |path|);
        }
      }
    }
  }

  lemma HasKids<V>(s: Store<V>, depth: nat)
    requires depth > 0 && WellFormed(s, depth)
    ensures s.Symbols?
  {
  }

  lemma GetLeaf<V>(s: Store<V>)
    requires WellFormed(s, 0) && Size(s) > 0
    ensures Lookup(s, []) == s.entries != []
    ensures Get(s, []) == Got(s.entries[0].count, Some(s.entries[0].value), Queue(Consume(s.entries)))
    ensures WellFormed(Get(s, []).store, 0) && Lookup(Get(s, []).store, []) == Consume(Lookup(s, []))
  {
  }

  /** One level of get and of the lookup. */
  lemma GetUnfold<V>(s: Store<V>, path: seq<string>, k: nat)
    requires path != [] && WellFormed(s, |path|) && k == Find(s.kids, path[0])
    ensures s == Symbols(s.kids)
    ensures k == |s.kids| ==> Get(s, path) == Got(0, None, s) && Lookup(s, path) == []
    ensures k < |s.kids| ==>
              && WellFormed(s.kids[k].sub, |path| - 1) && Size(s.kids[k].sub) > 0 && s.kids[k].name == path[0]
              && Lookup(s, path) == Lookup(s.kids[k].sub, path[1..])
              && var g := Get(s.kids[k].sub, path[1..]);
                 Get(s, path) == g.(store := Symbols(
                   if Size(g.store) == 0 then s.kids[..k] + s.kids[k + 1..] else s.kids[k := Kid(path[0], g.store)]))
  {
    hide DistinctNames, Find;
  }

  /** get touches exactly one queue and prunes what it emptied. */
  lemma {:induction false} GetMeaning<V>(s: Store<V>, path: seq<string>, other: seq<string>)
    requires WellFormed(s, |path|) && |other| == |path|
    requires path == [] ==> Size(s) > 0
    ensures WellFormed(Get(s, path).store, |path|)
    ensures Lookup(Get(s, path).store, other) ==
              if other == path && Lookup(s, path) != [] then Consume(Lookup(s, path)) else Lookup(s, other)
    decreases |path|
  {
    hide *;
    GetShape(s, path);
    if path == [] {
      GetLeaf(s);
    } else {
      IsSymbols(s, |path|);
      var k := Find(s.kids, path[0]);
      GetUnfold(s, path, k);
      PathSplit(other, path);
      if k < |s.kids| {
        GetMeaning(s.kids[k].sub, path[1..], other[1..]);
        GetBelow(s, path, other, k, Get(s.kids[k].sub, path[1..]).store);
      }
    }
  }

  /** What a change of kid k does to the queues of the store, if it does that to those below the kid. */
  lemma GetBelow<V>(s: Store<V>, path: seq<string>, other: seq<string>, k: nat, sub: Store<V>)
    requires path != [] && |other| == |path| && WellFormed(s, |path|) && k == Find(s.kids, path[0]) < |s.kids|
    requires WellFormed(sub, |path| - 1)
    ensures var kids := if Size(sub) == 0 then s.kids[..k] + s.kids[k + 1..] else s.kids[k := Kid(path[0], sub)];
            && WellFormed(Symbols(kids), |path|)
            && Lookup(Symbols(kids), other) ==
               if other[0] == path[0] then Lookup(sub, other[1..]) else Lookup(s, other)
    ensures other[0] == path[0] ==> Lookup(s, other) == Lookup(s.kids[k].sub, other[1..])
  {
    hide Find, DistinctNames;
    if Size(sub) == 0 {
      SizeZero(sub, other[1..]);
      LookupRemove(s.kids, k, s.kids[..k] + s.kids[k + 1..], other);
    } else {
      LookupReplace(s.kids, k, sub, other);
    }
  }

  lemma SizeZero<V>(s: Store<V>, path: seq<string>)
    requires WellFormed(s, |path|) && Size(s) == 0
    ensures Lookup(s, path) == []
  {
  }

  /** The sweep acts on each queue alone and prunes what it emptied. */
  lemma {:induction false} SweepMeaning<V>(s: Store<V>, path: seq<string>)
    requires WellFormed(s, |path|)
    ensures WellFormed(Sweep(s), |path|)
    ensures Lookup(Sweep(s), path) == SweepQueue(Lookup(s, path))
    decreases |path|
  {
    if path != [] {
      forall i | 0 <= i < |s.kids|
        ensures WellFormed(Sweep(s.kids[i].sub), |path| - 1)
        ensures Lookup(Sweep(s.kids[i].sub), path[1..]) == SweepQueue(Lookup(s.kids[i].sub, path[1..]))
      {
        SweepMeaning(s.kids[i].sub, path[1..]);
      }
      SweepKidsShape(s.kids);
      SweptKids(s.kids, path);
    }
  }

  lemma SweptKids<V>(kids: seq<Kid<V>>, path: seq<string>)
    requires path != [] && WellFormed(Symbols(kids), |path|) && DistinctNames(SweepKids(kids))
    requires forall i :: 0 <= i < |kids| ==> WellFormed(Sweep(kids[i].sub), |path| - 1)
    requires forall i :: 0 <= i < |kids| ==>
               Lookup(Sweep(kids[i].sub), path[1..]) == SweepQueue(Lookup(kids[i].sub, path[1..]))
    ensures WellFormed(Symbols(SweepKids(kids)), |path|)
    ensures Lookup(Symbols(SweepKids(kids)), path) == SweepQueue(Lookup(Symbols(kids), path))
  {
    hide Find, DistinctNames, Sweep, SweepKids;
    SweepKidsShape(kids);
    FindSwept(kids, path[0]);
    var k := Find(kids, path[0]);
    if k < |kids| && Size(Sweep(kids[k].sub)) == 0 {
      SizeZero(Sweep(kids[k].sub), path[1..]);
    }
  }

  lemma DistinctTail<V>(kids: seq<Kid<V>>)
    requires kids != [] && DistinctNames(kids)
    ensures DistinctNames(kids[1..]) && Find(kids[1..], kids[0].name) == |kids| - 1
  {
    assert kids[..0] + kids[1..] == kids[1..];
    DistinctRemove(kids, 0);
    FindRemove(kids, 0, kids[0].name);
  }

  /** A swept kid is a kid whose swept subtree is not empty. */
  lemma {:induction false} SweepKidsShape<V>(kids: seq<Kid<V>>)
    ensures forall kid :: kid in SweepKids(kids) ==>
              exists i :: 0 <= i < |kids| && kid == Kid(kids[i].name, Sweep(kids[i].sub)) && Size(kid.sub) > 0
    ensures DistinctNames(kids) ==> DistinctNames(SweepKids(kids))
    decreases |kids|
  {
    hide Sweep, Size, DistinctNames, Find;
    if kids == [] {
      NoKids<V>();
    } else {
      var tail, kid := SweepKids(kids[1..]), Kid(kids[0].name, Sweep(kids[0].sub));
      SweepKidsShape(kids[1..]);
      SweptHead(kids);
      assert forall i :: 0 <= i < |kids[1..]| ==> kids[1..][i] == kids[i + 1];
      if DistinctNames(kids) {
        DistinctTail(kids);
        FindSwept(kids[1..], kids[0].name);
        DistinctCons(kid, tail);
      }
    }
  }

  lemma NoKids<V>()
    ensures DistinctNames<V>([]) && SweepKids<V>([]) == []
  {
  }

  lemma DistinctCons<V>(kid: Kid<V>, kids: seq<Kid<V>>)
    requires DistinctNames(kids) && Find(kids, kid.name) == |kids|
    ensures DistinctNames([kid] + kids)
  {
    var all := [kid] + kids;
    forall i | 0 <= i < |all| ensures Find(all, all[i].name) == i {
      assert all[1..] == kids;
      if i > 0 {
        assert Find(kids, kids[i - 1].name) == i - 1;
      }
    }
  }

  lemma {:induction false} FindSwept<V>(kids: seq<Kid<V>>, name: string)
    requires DistinctNames(kids)
    ensures var j, swept := Find(kids, name), SweepKids(kids);
            var j' := Find(swept, name);
            if j == |kids| || Size(Sweep(kids[j].sub)) == 0 then j' == |swept|
            else j' < |swept| && swept[j'] == Kid(name, Sweep(kids[j].sub))
    decreases |kids|
  {
    hide *;
    if kids == [] {
      SweptNone<V>(name);
    } else {
      DistinctTail(kids);
      FindSwept(kids[1..], name);
      SweptHead(kids);
      FindCons(kids[0], kids[1..], name);
      FindCons(Kid(kids[0].name, Sweep(kids[0].sub)), SweepKids(kids[1..]), name);
      assert kids == [kids[0]] + kids[1..];
    }
  }

  lemma SweptNone<V>(name: string)
    ensures SweepKids<V>([]) == [] && Find<V>([], name) == 0
  {
  }

  lemma FindCons<V>(kid: Kid<V>, tail: seq<Kid<V>>, name: string)
    ensures Find([kid] + tail, name) == if kid.name == name then 0 else 1 + Find(tail, name)
  {
    assert ([kid] + tail)[1..] == tail;
  }

  lemma SweptHead<V>(kids: seq<Kid<V>>)
    requires kids != []
    ensures SweepKids(kids) == if Size(Sweep(kids[0].sub)) == 0 then SweepKids(kids[1..])
                               else [Kid(kids[0].name, Sweep(kids[0].sub))] + SweepKids(kids[1..])
  {
  }

  /** The leftover check counts exactly the top-level symbols, and is 0 exactly when every queue is empty. */
  lemma {:induction false} LeftoversMeaning<V>(s: Store<V>, depth: nat)
    requires depth > 0 && WellFormed(s, depth)
    ensures Leftovers(s) == |s.kids|
    ensures Leftovers(s) == 0 <==> (forall p: seq<string> :: |p| == depth ==> Lookup(s, p) == [])
    decreases |s.kids|
  {
    if s.kids != [] {
      var rest := Symbols(s.kids[1..]);
      assert WellFormed(rest, depth) by {
        assert forall i :: 0 <= i < |rest.kids| ==> rest.kids[i] == s.kids[i + 1];
      }
      LeftoversMeaning(rest, depth);
      var p := SomePath(s, depth);
    }
  }

  /** A non-empty store has a path with a non-empty queue. */
  lemma {:induction false} SomePath<V>(s: Store<V>, depth: nat) returns (p: seq<string>)
    requires WellFormed(s, depth) && Size(s) > 0
    ensures |p| == depth && Lookup(s, p) != []
    decreases depth
  {
    if depth == 0 {
      p := [];
    } else {
      var p' := SomePath(s.kids[0].sub, depth - 1);
      p := [s.kids[0].name] + p';
      assert p[1..] == p';
    }
  }
}
