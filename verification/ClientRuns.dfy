// What a program under test may do with the guarded allocator, and what it can rely on over any
// run that writes to payloads only.
module ClientRuns {
  import opened Wrappers
  import opened Sequences
  import opened Words
  import opened Allocator

  /** Blocks are named by their position in the list. */
  datatype ClientOp =
    | Malloc(size: nat, answer: Option<nat>)
    | Calloc(number: nat, size: nat, answer: Option<nat>)
    | Realloc(from: Option<nat>, size: nat, answer: Option<nat>)
    | Free(k: nat)
    | Write(k: nat, offset: nat, value: Byte)

  /** The heap invariant, with all guards intact. */
  ghost predicate Clean(a: Allocator)
    reads a
  {
    a.Valid() && AllIntact(a.mem, a.header, a.blocks)
  }

  function UserOf(a: Allocator, k: nat): nat
    requires k < |a.blocks|
    reads a
  {
    a.blocks[k] + a.header + GUARD
  }

  /** libc may answer so, if it is asked: it is not if the sum of the parts wraps. */
  predicate MayAnswer(m: Arena, header: nat, top: nat, answer: Option<nat>, size: nat) {
    Sum(header, size) < top ==> Possible(m, top, answer, Sum(header, size))
  }

  /** A call with arguments that C allows, on blocks that are there; writes go to payloads. */
  predicate AllowedIn(m: Arena, header: nat, top: nat, blocks: seq<nat>, op: ClientOp) {
    match op
    case Malloc(size, answer) => size < top && MayAnswer(m, header, top, answer, size)
    case Calloc(number, size, answer) => number < top && size < top && MayAnswer(m, header, top, answer, number * size)
    case Realloc(k, size, answer) =>
      && size < top && (k.None? || size > 0 ==> MayAnswer(m, header, top, answer, size))
      && (k.Some? ==> k.value < |blocks|)
    case Free(k) => k < |blocks|
    case Write(k, offset, _) => k < |blocks| && blocks[k] in m.headers && offset < m.headers[blocks[k]].size
  }

  predicate Allowed(a: Allocator, op: ClientOp)
    reads a
  {
    AllowedIn(a.mem, a.header, Pow2(a.width), a.blocks, op)
  }

  /** No memory is found for the size, or the sum of the parts does not fit in a size_t. */
  predicate NotFound(header: nat, top: nat, answer: Option<nat>, size: nat) {
    answer.None? || Sum(header, size) >= top
  }

  /** The calls that fail. calloc does not: it returns null if the product of its arguments wraps. */
  predicate Refused(header: nat, top: nat, op: ClientOp) {
    match op
    case Malloc(size, answer) => NotFound(header, top, answer, size)
    case Calloc(number, size, answer) => number * size < top && NotFound(header, top, answer, number * size)
    case Realloc(k, size, answer) => (k.None? || size > 0) && NotFound(header, top, answer, size)
    case _ => false
  }

  predicate Touches(op: ClientOp, i: nat) {
    match op
    case Realloc(k, _, _) => k == Some(i)
    case Free(k) => k == i
    case Write(k, _, _) => k == i
    case _ => false
  }

  /** Outside [from, from + n) nothing changed, and part of the blocks lie outside: they are as they were. */
  lemma KeptOutside(m: Arena, m': Arena, top: nat, header: nat, blocks: seq<nat>, i: nat, from: nat, n: nat)
    requires Sane(m, top) && Linked(m, header, blocks) && i < |blocks|
    requires SameBut(m, m', from, n) && blocks[i] in m.headers && blocks[i] in m'.headers &&
             m'.headers[blocks[i]] == m.headers[blocks[i]]
    requires Apart(m.headers[blocks[i]].block, m.headers[blocks[i]].total, from, n)
    ensures BlockKept(m, m', blocks[i])
  {
    assert Live(m, header, blocks[i]);
    assert m.headers[blocks[i]].block in m.regions;
  }

  /** Guards of blocks that were kept are intact if they were. */
  lemma CleanAgain(m: Arena, m': Arena, header: nat, before: seq<nat>, after: seq<nat>)
    requires Linked(m, header, before) && AllIntact(m, header, before)
    requires forall x :: x in after ==>
               (x in before && BlockKept(m, m', x)) || (x in m'.headers && Intact(m', header, x))
    ensures AllIntact(m', header, after)
  {
    forall i | 0 <= i < |after| ensures after[i] in m'.headers && Intact(m', header, after[i]) {
      var x := after[i];
      if x in before && BlockKept(m, m', x) {
        var k :| 0 <= k < |before| && before[k] == x;
        assert Live(m, header, before[k]);
        KeptGuards(m, m', header, x);
      }
    }
  }

  /** A new block at the end of the list, and no other change. */
  lemma AfterNew(m: Arena, m': Arena, top: nat, header: nat, before: seq<nat>, h: nat)
    requires Sane(m, top) && Linked(m, header, before) && AllIntact(m, header, before)
    requires SameBut(m, m', 0, 0) && SameHeaders(m, m', before) && h in m'.headers && Intact(m', header, h)
    ensures AllIntact(m', header, before + [h])
    ensures forall i :: 0 <= i < |before| ==> BlockKept(m, m', before[i])
  {
    forall i | 0 <= i < |before| ensures BlockKept(m, m', before[i]) {
      KeptOutside(m, m', top, header, before, i, 0, 0);
    }
    CleanAgain(m, m', header, before, before + [h]);
  }

  /** What a call does to the list of blocks. */
  ghost function EventsOf(before: seq<nat>, header: nat, op: ClientOp, r: Result): (events: seq<ListOp>)
    requires (op.Free? || op.Write? ==> op.k < |before|) && (op.Realloc? && op.from.Some? ==> op.from.value < |before|)
  {
    var added := if r.Pointer? && r.address > GUARD + header then [Added(r.address - GUARD - header)] else [];
    match op
    case Malloc(_, _) => added
    case Calloc(_, _, _) => added
    case Realloc(from, size, _) =>
      if from.None? then added
      else if size == 0 then [Removed(before[from.value])]
      else if r.Pointer? then [Removed(before[from.value])] + added else []
    case Free(k) => [Removed(before[k])]
    case Write(_, _, _) => []
  }

  /** The last block in the list has the given payload. */
  ghost predicate NewPayload(m: Arena, header: nat, ptr: nat, size: nat, blocks: seq<nat>) {
    && ptr > GUARD + header && blocks != [] && blocks[|blocks| - 1] == ptr - GUARD - header
    && ptr - GUARD - header in m.headers && m.headers[ptr - GUARD - header].size == size
  }

  /** What a call does for its caller: the block that is handed out has the size that was asked for; after
      calloc it is zero, and after realloc it starts with the bytes of the old block; a write changes one
      byte. A call that fails changes nothing. */
  ghost predicate Serves(header: nat, top: nat, op: ClientOp, r: Result, m: Arena, before: seq<nat>, m': Arena,
                         after: seq<nat>)
  {
    if r.Fails? then m' == m else
    match op
    case Malloc(size, _) =>
      NewPayload(m', header, r.address, size, after) && Filled(m', r.address, size, ALLOC_PATTERN)
    case Calloc(number, size, _) =>
      if number * size >= top then r.address == 0 && m' == m
      else NewPayload(m', header, r.address, number * size, after) && Filled(m', r.address, number * size, 0)
    case Realloc(from, size, _) =>
      if from.None? then NewPayload(m', header, r.address, size, after)
      else if size == 0 then r.address == 0
      else
        && from.value < |before| && before[from.value] in m.headers
        && NewPayload(m', header, r.address, size, after)
        && var had := m.headers[before[from.value]].size;
           Copied(m, before[from.value] + header + GUARD, m', r.address, if had < size then had else size)
    case Free(_) => r.address == 0
    case Write(k, offset, value) =>
      && r.address == 0 && k < |before| && before[k] in m.headers && before[k] in m'.headers
      && m'.headers[before[k]] == m.headers[before[k]]
      && before[k] + header + GUARD + offset in m.bytes
      && m'.bytes == m.bytes[before[k] + header + GUARD + offset := value]
  }

  lemma OneEvent(s: seq<nat>, e: ListOp)
    ensures RunList(s, []) == s && Legal(s, [])
    ensures RunList(s, [e]) == if e.Added? then s + [e.h] else Minus(s, e.h)
    ensures Legal(s, [e]) <==> if e.Added? then e.h !in s else e.h in s
  {
  }

  lemma TwoEvents(s: seq<nat>, h: nat, x: nat)
    ensures RunList(s, [Removed(h)] + [Added(x)]) == Minus(s, h) + [x]
    ensures Legal(s, [Removed(h)] + [Added(x)]) <==> h in s && x !in Minus(s, h)
  {
    var es := [Removed(h)] + [Added(x)];
    assert es[1..] == [Added(x)];
    OneEvent(Minus(s, h), Added(x));
  }

  /** The part of the contract of a call that concerns the list. */
  ghost predicate ListFollows(before: seq<nat>, header: nat, op: ClientOp, r: Result, after: seq<nat>)
    requires (op.Free? || op.Write? ==> op.k < |before|) && (op.Realloc? && op.from.Some? ==> op.from.value < |before|)
  {
    Legal(before, EventsOf(before, header, op, r)) && after == RunList(before, EventsOf(before, header, op, r))
  }

  method DoMalloc(a: Allocator, op: ClientOp) returns (r: Result)
    requires Clean(a) && Allowed(a, op) && op.Malloc?
    modifies a
    ensures Clean(a) && ListFollows(old(a.blocks), a.header, op, r, a.blocks)
    ensures forall i :: 0 <= i < |old(a.blocks)| ==> BlockKept(old(a.mem), a.mem, old(a.blocks)[i])
    ensures r.Fails? <==> Refused(a.header, Pow2(a.width), op)
    ensures Serves(a.header, Pow2(a.width), op, r, old(a.mem), old(a.blocks), a.mem, a.blocks)
  {
    hide Sane, Linked, Live, Intact, SameBut, SameHeaders, BlockKept, Filled, RunList, Legal, Minus, Pow2, AllIntact;
    ghost var m, before := a.mem, a.blocks;
    r := a.TestMalloc(op.size, op.answer);
    Unchanged(m, Pow2(a.width), a.header, before);
    if r.Pointer? {
      AfterNew(m, a.mem, Pow2(a.width), a.header, before, r.address - GUARD - a.header);
      OneEvent(before, Added(r.address - GUARD - a.header));
    } else {
      OneEvent(before, Added(0));
    }
  }

  lemma Unchanged(m: Arena, top: nat, header: nat, blocks: seq<nat>)
    requires Sane(m, top) && Linked(m, header, blocks)
    ensures forall i :: 0 <= i < |blocks| ==> BlockKept(m, m, blocks[i])
  {
    FreeingStarts(m, top, header, blocks, |blocks|);
  }

  method DoCalloc(a: Allocator, op: ClientOp) returns (r: Result)
    requires Clean(a) && Allowed(a, op) && op.Calloc?
    modifies a
    ensures Clean(a) && ListFollows(old(a.blocks), a.header, op, r, a.blocks)
    ensures forall i :: 0 <= i < |old(a.blocks)| ==> BlockKept(old(a.mem), a.mem, old(a.blocks)[i])
    ensures r.Fails? <==> Refused(a.header, Pow2(a.width), op)
    ensures Serves(a.header, Pow2(a.width), op, r, old(a.mem), old(a.blocks), a.mem, a.blocks)
  {
    hide Sane, Linked, Live, Intact, SameBut, SameHeaders, BlockKept, Filled, RunList, Legal, Minus, Pow2, AllIntact;
    ghost var m, before := a.mem, a.blocks;
    r := a.TestCalloc(op.number, op.size, op.answer);
    Unchanged(m, Pow2(a.width), a.header, before);
    if r.Pointer? && r.address != 0 {
      AfterNew(m, a.mem, Pow2(a.width), a.header, before, r.address - GUARD - a.header);
      OneEvent(before, Added(r.address - GUARD - a.header));
    } else {
      OneEvent(before, Added(0));
    }
  }

  method DoFree(a: Allocator, op: ClientOp) returns (r: Result)
    requires Clean(a) && Allowed(a, op) && op.Free?
    modifies a
    ensures Clean(a) && ListFollows(old(a.blocks), a.header, op, r, a.blocks)
    ensures r == Pointer(0) && Serves(a.header, Pow2(a.width), op, r, old(a.mem), old(a.blocks), a.mem, a.blocks)
    ensures forall i :: 0 <= i < |old(a.blocks)| && i != op.k ==> BlockKept(old(a.mem), a.mem, old(a.blocks)[i])
  {
    hide Sane, Linked, Live, Intact, SameBut, SameHeaders, BlockKept, Filled, RunList, Legal, Minus, Pow2, AllIntact;
    ghost var m, before := a.mem, a.blocks;
    IsIntact(a, op.k);
    r := a.TestFree(UserOf(a, op.k));
    ReleasedOthers(m, a.mem, Pow2(a.width), a.header, before, a.blocks, op.k);
    ReleasedHeaders(m, a.mem, before, a.blocks, before[op.k]);
    OneEvent(before, Removed(before[op.k]));
    RestOf(before, op.k, a.blocks);
    CleanAgain(m, a.mem, a.header, before, a.blocks);
  }

  lemma IsIntact(a: Allocator, k: nat)
    requires Clean(a) && k < |a.blocks|
    ensures a.Owns(UserOf(a, k)) && UserOf(a, k) - GUARD - a.header == a.blocks[k]
    ensures a.blocks[k] in a.mem.headers && Intact(a.mem, a.header, a.blocks[k])
  {
  }

  lemma RestOf(s: seq<nat>, k: nat, rest: seq<nat>)
    requires k < |s| && rest == s[..k] + s[k + 1..]
    ensures forall x :: x in rest ==> exists i :: 0 <= i < |s| && i != k && s[i] == x
  {
    forall x | x in rest ensures exists i :: 0 <= i < |s| && i != k && s[i] == x {
      var j :| 0 <= j < |rest| && rest[j] == x;
      assert s[if j < k then j else j + 1] == x;
    }
  }

  /** A byte of a payload is in no header, in no other block, and in no guard of its own. */
  lemma PayloadByte(m: Arena, top: nat, header: nat, blocks: seq<nat>, k: nat, offset: nat)
    requires header > 0 && Sane(m, top) && Linked(m, header, blocks)
    requires k < |blocks| && blocks[k] in m.headers && offset < m.headers[blocks[k]].size
    ensures var x := blocks[k] + header + GUARD + offset;
            && x in m.bytes
            && Apart(blocks[k] + header, GUARD, x, 1)
            && Apart(blocks[k] + header + GUARD + m.headers[blocks[k]].size, GUARD, x, 1)
            && forall i :: 0 <= i < |blocks| ==>
                 && Apart(blocks[i], header, x, 1)
                 && (i != k ==>
                       && blocks[i] in m.headers
                       && Apart(m.headers[blocks[i]].block, m.headers[blocks[i]].total, x, 1))
  {
    hide Sane, Linked;
    var x := blocks[k] + header + GUARD + offset;
    forall i | 0 <= i < |blocks|
      ensures Apart(blocks[i], header, x, 1)
      ensures i != k ==> blocks[i] in m.headers && Apart(m.headers[blocks[i]].block, m.headers[blocks[i]].total, x, 1)
    {
      PayloadApart(m, top, header, blocks, k, i, offset);
    }
    PayloadThere(m, top, header, blocks, blocks[k] + header + GUARD);
  }

  /** A write to it leaves all guards and all other blocks as they are. */
  lemma PayloadChanged(m: Arena, m': Arena, top: nat, header: nat, blocks: seq<nat>, k: nat, x: nat, v: Byte)
    requires Sane(m, top) && Linked(m, header, blocks) && AllIntact(m, header, blocks)
    requires k < |blocks| && blocks[k] in m.headers && m'.bytes == m.bytes[x := v] && SameHeaders(m, m', blocks)
    requires blocks[k] + header + GUARD <= x < blocks[k] + header + GUARD + m.headers[blocks[k]].size
    requires forall i :: 0 <= i < |blocks| && i != k ==>
               blocks[i] in m.headers && Apart(m.headers[blocks[i]].block, m.headers[blocks[i]].total, x, 1)
    ensures AllIntact(m', header, blocks) && forall i :: 0 <= i < |blocks| && i != k ==> BlockKept(m, m', blocks[i])
  {
    hide *;
    OneByte(m, m', x, v);
    PayloadKeepsGuards(m, m', header, blocks, k, x);
    forall i | 0 <= i < |blocks| && i != k ensures BlockKept(m, m', blocks[i]) {
      SameHeaderAt(m, m', blocks, i);
      KeptOutside(m, m', top, header, blocks, i, x, 1);
    }
    CleanAgain(m, m', header, blocks, blocks);
  }

  lemma SameHeaderAt(m: Arena, m': Arena, blocks: seq<nat>, i: nat)
    requires SameHeaders(m, m', blocks) && i < |blocks|
    ensures blocks[i] in m.headers && blocks[i] in m'.headers && m'.headers[blocks[i]] == m.headers[blocks[i]]
  {
  }

  lemma OneByte(m: Arena, m': Arena, x: nat, v: Byte)
    requires m'.bytes == m.bytes[x := v]
    ensures SameBut(m, m', x, 1)
  {
  }

  /** The byte is in no header, and in no other block. */
  lemma PayloadApart(m: Arena, top: nat, header: nat, blocks: seq<nat>, k: nat, i: nat, offset: nat)
    requires header > 0 && Sane(m, top) && Linked(m, header, blocks) && k < |blocks| && i < |blocks|
    requires blocks[k] in m.headers && offset < m.headers[blocks[k]].size
    ensures var x := blocks[k] + header + GUARD + offset;
            && Apart(blocks[i], header, x, 1)
            && (i != k ==>
                  && blocks[i] in m.headers
                  && Apart(m.headers[blocks[i]].block, m.headers[blocks[i]].total, x, 1))
  {
    if i != k {
      BlocksApart(m, top, header, blocks, i, k);
      hide Sane, Linked;
    }
  }

  /** The byte is in no guard of its block. */
  lemma PayloadKeepsGuards(m: Arena, m': Arena, header: nat, blocks: seq<nat>, k: nat, x: nat)
    requires SameBut(m, m', x, 1) && SameHeaders(m, m', blocks) && AllIntact(m, header, blocks)
    requires k < |blocks| && blocks[k] in m.headers
    requires blocks[k] + header + GUARD <= x < blocks[k] + header + GUARD + m.headers[blocks[k]].size
    ensures blocks[k] in m'.headers && Intact(m', header, blocks[k])
  {
    assert Intact(m, header, blocks[k]);
  }

  method DoWrite(a: Allocator, op: ClientOp) returns (r: Result)
    requires Clean(a) && Allowed(a, op) && op.Write?
    modifies a
    ensures Clean(a) && ListFollows(old(a.blocks), a.header, op, r, a.blocks)
    ensures r == Pointer(0) && Serves(a.header, Pow2(a.width), op, r, old(a.mem), old(a.blocks), a.mem, a.blocks)
    ensures UserOf(a, op.k) + op.offset in old(a.mem.bytes)
    ensures a.mem.bytes == old(a.mem.bytes)[UserOf(a, op.k) + op.offset := op.value]
    ensures forall i :: 0 <= i < |old(a.blocks)| && i != op.k ==> BlockKept(old(a.mem), a.mem, old(a.blocks)[i])
  {
    hide Sane, Linked, Live, Intact, SameBut, SameHeaders, BlockKept, Filled, RunList, Legal, Minus, Pow2, AllIntact;
    ghost var m := a.mem;
    PayloadByte(m, Pow2(a.width), a.header, a.blocks, op.k, op.offset);
    a.ClientWrite(UserOf(a, op.k) + op.offset, op.value);
    PayloadChanged(m, a.mem, Pow2(a.width), a.header, a.blocks, op.k, UserOf(a, op.k) + op.offset, op.value);
    OneEvent(a.blocks, Added(0));
    r := Pointer(0);
  }

  /** The block that was moved is gone, the new one is there, the others are as they were. */
  lemma AfterRealloc(m: Arena, m': Arena, top: nat, header: nat, before: seq<nat>, k: nat, x: nat)
    requires Sane(m, top) && Linked(m, header, before) && AllIntact(m, header, before) && k < |before|
    requires before[k] in m.headers && SameBut(m, m', m.headers[before[k]].block, m.headers[before[k]].total)
    requires SameHeaders(m, m', Minus(before, before[k])) && x in m'.headers && Intact(m', header, x)
    ensures AllIntact(m', header, Minus(before, before[k]) + [x])
    ensures forall i :: 0 <= i < |before| && i != k ==> BlockKept(m, m', before[i])
  {
    hide *;
    var rest := Minus(before, before[k]);
    BlocksDistinct(m, header, before);
    MinusElements(before, k, rest);
    forall i | 0 <= i < |before| && i != k ensures BlockKept(m, m', before[i]) {
      assert rest[if i < k then i else i - 1] == before[i];
      OtherThanMoved(m, m', top, header, before, k, rest, i);
    }
    RestOf(before, k, rest);
    CleanAgain(m, m', header, before, rest + [x]);
  }

  lemma OtherThanMoved(m: Arena, m': Arena, top: nat, header: nat, before: seq<nat>, k: nat, rest: seq<nat>,
                       i: nat)
    requires Sane(m, top) && Linked(m, header, before) && k < |before| && i < |before| && i != k
    requires before[k] in m.headers && SameBut(m, m', m.headers[before[k]].block, m.headers[before[k]].total)
    requires SameHeaders(m, m', rest) && before[i] in rest
    ensures BlockKept(m, m', before[i])
  {
    assert before[i] in m.headers && before[i] in m'.headers && m'.headers[before[i]] == m.headers[before[i]];
    hide SameHeaders, SameBut, Sane, Linked, BlockKept;
    BlocksApart(m, top, header, before, i, k);
    KeptOutside(m, m', top, header, before, i, m.headers[before[k]].block, m.headers[before[k]].total);
  }

  method DoRealloc(a: Allocator, op: ClientOp) returns (r: Result)
    requires Clean(a) && Allowed(a, op) && op.Realloc?
    modifies a
    ensures Clean(a) && ListFollows(old(a.blocks), a.header, op, r, a.blocks)
    ensures r.Fails? <==> Refused(a.header, Pow2(a.width), op)
    ensures Serves(a.header, Pow2(a.width), op, r, old(a.mem), old(a.blocks), a.mem, a.blocks)
    ensures forall i :: 0 <= i < |old(a.blocks)| && op.from != Some(i) ==>
            BlockKept(old(a.mem), a.mem, old(a.blocks)[i])
  {
    hide Sane, Linked, Live, Intact, SameBut, SameHeaders, BlockKept, Filled, RunList, Legal, Minus, Pow2, AllIntact;
    ghost var m, before := a.mem, a.blocks;
    Unchanged(m, Pow2(a.width), a.header, before);
    if op.from.None? {
      r := a.TestRealloc(0, op.size, op.answer);
      if r.Pointer? {
        AfterNew(m, a.mem, Pow2(a.width), a.header, before, r.address - GUARD - a.header);
        OneEvent(before, Added(r.address - GUARD - a.header));
      } else {
        OneEvent(before, Added(0));
      }
      return;
    }
    var k := op.from.value;
    IsIntact(a, k);
    r := a.TestRealloc(UserOf(a, k), op.size, op.answer);
    if op.size == 0 {
      ReleasedOthers(m, a.mem, Pow2(a.width), a.header, before, a.blocks, k);
      ReleasedHeaders(m, a.mem, before, a.blocks, before[k]);
      OneEvent(before, Removed(before[k]));
      RestOf(before, k, a.blocks);
      CleanAgain(m, a.mem, a.header, before, a.blocks);
    } else if r.Pointer? {
      AfterRealloc(m, a.mem, Pow2(a.width), a.header, before, k, r.address - GUARD - a.header);
      TwoEvents(before, before[k], r.address - GUARD - a.header);
    } else {
      OneEvent(before, Added(0));
    }
  }

  /** One step of a client: whatever it is, the invariant and all guards survive it, no free ever
      fails, and no byte of a block it is not about changes. */
  method Do(a: Allocator, op: ClientOp) returns (r: Result)
    requires Clean(a) && Allowed(a, op)
    modifies a
    ensures Clean(a) && ListFollows(old(a.blocks), a.header, op, r, a.blocks)
    ensures r.Fails? <==> Refused(a.header, Pow2(a.width), op)
    ensures Serves(a.header, Pow2(a.width), op, r, old(a.mem), old(a.blocks), a.mem, a.blocks)
    ensures forall i :: 0 <= i < |old(a.blocks)| && !Touches(op, i) ==> BlockKept(old(a.mem), a.mem, old(a.blocks)[i])
  {
    hide Clean, Allowed, BlockKept, ListFollows, EventsOf;
    match op
    case Malloc(_, _) => r := DoMalloc(a, op);
    case Calloc(_, _, _) => r := DoCalloc(a, op);
    case Realloc(_, _, _) => r := DoRealloc(a, op);
    case Free(_) => r := DoFree(a, op);
    case Write(_, _, _) => r := DoWrite(a, op);
  }

  // ---- Runs

  /** One call of a run: the memory and the list of blocks it found, whether it was allowed (it is left
      out otherwise), what it returned, and the memory it left. */
  datatype Step = Step(op: ClientOp, mem: Arena, before: seq<nat>, allowed: bool, result: Result, after: Arena)

  ghost function StepEvents(header: nat, st: Step): seq<ListOp> {
    if st.allowed
       && (st.op.Free? || st.op.Write? ==> st.op.k < |st.before|)
       && (st.op.Realloc? && st.op.from.Some? ==> st.op.from.value < |st.before|)
    then EventsOf(st.before, header, st.op, st.result) else []
  }

  /** What a run does to the list of blocks. */
  ghost function RunEvents(header: nat, trace: seq<Step>): seq<ListOp> {
    if trace == [] then [] else StepEvents(header, trace[0]) + RunEvents(header, trace[1..])
  }

  /** trace is a run from the given memory and list: each call finds what the one before it left, is left
      out only if it is not allowed, and does what is asked of it. */
  ghost predicate Follows(header: nat, top: nat, m: Arena, blocks: seq<nat>, trace: seq<Step>)
    decreases |trace|
  {
    trace == [] ||
    var st := trace[0];
    && st.mem == m && st.before == blocks && (st.allowed <==> AllowedIn(m, header, top, blocks, st.op))
    && StepKeeps(header, top, st, RunList(blocks, StepEvents(header, st)))
    && Follows(header, top, st.after, RunList(blocks, StepEvents(header, st)), trace[1..])
  }

  /** No call of the run that was made is about the block with its header at h. */
  ghost predicate Untouched(trace: seq<Step>, h: nat) {
    forall j :: 0 <= j < |trace| && trace[j].allowed ==> !TouchesBlock(trace[j], h)
  }

  predicate TouchesBlock(st: Step, h: nat) {
    exists i :: 0 <= i < |st.before| && Touches(st.op, i) && st.before[i] == h
  }

  function LastMemory(trace: seq<Step>, m: Arena): Arena {
    if trace == [] then m else trace[|trace| - 1].after
  }

  lemma {:induction false} RunListConcat(s: seq<nat>, e1: seq<ListOp>, e2: seq<ListOp>)
    ensures RunList(s, e1 + e2) == RunList(RunList(s, e1), e2)
    ensures Legal(s, e1 + e2) <==> Legal(s, e1) && Legal(RunList(s, e1), e2)
    decreases |e1|
  {
    if e1 == [] {
      assert e1 + e2 == e2;
    } else {
      assert (e1 + e2)[0] == e1[0] && (e1 + e2)[1..] == e1[1..] + e2;
      hide Minus;
      RunListConcat(if e1[0].Added? then s + [e1[0].h] else Minus(s, e1[0].h), e1[1..], e2);
    }
  }

  /** What a run keeps, from its start to its end. */
  ghost predicate RunKeeps(header: nat, m: Arena, blocks: seq<nat>, trace: seq<Step>, m': Arena, blocks': seq<nat>) {
    && Legal(blocks, RunEvents(header, trace)) && blocks' == RunList(blocks, RunEvents(header, trace))
    && forall h :: h in blocks && Untouched(trace, h) ==> h in blocks' && BlockKept(m, m', h)
  }

  /** One call of a run, if it is allowed. */
  method Attempt(a: Allocator, op: ClientOp) returns (r: Result, ghost st: Step)
    requires Clean(a)
    modifies a
    ensures Clean(a) && StepKeeps(a.header, Pow2(a.width), st, a.blocks)
    ensures st.op == op && st.mem == old(a.mem) && st.before == old(a.blocks) && st.after == a.mem && st.result == r
    ensures st.allowed <==> AllowedIn(st.mem, a.header, Pow2(a.width), st.before, op)
  {
    hide *;
    ghost var m, before := a.mem, a.blocks;
    r := Pointer(0);
    var allowed := Allowed(a, op);
    AllowedHere(a, op);
    IsLinked(a);
    StayingStep(a, Step(op, m, before, false, r, m));
    if allowed {
      r := Do(a, op);
      DoneStep(a, Step(op, m, before, true, r, a.mem));
    }
    st := Step(op, m, before, allowed, r, a.mem);
  }

  /** A run of a client: any calls, one after the other. All guards stay intact, so no free fails; the
      list of blocks follows the allocations and frees; and a block that no call is about keeps its
      header and every byte. */
  method Run(a: Allocator, ops: seq<ClientOp>) returns (ghost trace: seq<Step>)
    requires Clean(a)
    modifies a
    ensures Clean(a)
    ensures |trace| == |ops| && forall j :: 0 <= j < |ops| ==> trace[j].op == ops[j]
    ensures Follows(a.header, Pow2(a.width), old(a.mem), old(a.blocks), trace) && a.mem == LastMemory(trace, old(a.mem))
    ensures RunKeeps(a.header, old(a.mem), old(a.blocks), trace, a.mem, a.blocks)
    decreases |ops|
  {
    hide *;
    ghost var m, before := a.mem, a.blocks;
    if ops == [] {
      trace := [];
      RunStarts(a);
      return;
    }
    ghost var st;
    var r;
    r, st := Attempt(a, ops[0]);
    ghost var between := a.blocks;
    ghost var rest := Run(a, ops[1..]);
    trace := [st] + rest;
    RunOn(a.header, Pow2(a.width), st, between, rest, a.mem, a.blocks);
  }

  lemma IsLinked(a: Allocator)
    requires Clean(a)
    ensures Linked(a.mem, a.header, a.blocks)
  {
  }

  lemma AllowedHere(a: Allocator, op: ClientOp)
    ensures Allowed(a, op) <==> AllowedIn(a.mem, a.header, Pow2(a.width), a.blocks, op)
    ensures Allowed(a, op) && (op.Free? || op.Write?) ==> op.k < |a.blocks|
    ensures Allowed(a, op) && op.Realloc? && op.from.Some? ==> op.from.value < |a.blocks|
  {
  }

  lemma RunStarts(a: Allocator)
    requires Clean(a)
    ensures RunKeeps(a.header, a.mem, a.blocks, [], a.mem, a.blocks)
    ensures Follows(a.header, Pow2(a.width), a.mem, a.blocks, []) && LastMemory([], a.mem) == a.mem
  {
    Unchanged(a.mem, Pow2(a.width), a.header, a.blocks);
  }

  /** What one call does, and what it keeps. */
  ghost predicate StepKeeps(header: nat, top: nat, st: Step, blocks': seq<nat>) {
    && Linked(st.mem, header, st.before)
    && (st.allowed ==> Serves(header, top, st.op, st.result, st.mem, st.before, st.after, blocks'))
    && Legal(st.before, StepEvents(header, st)) && blocks' == RunList(st.before, StepEvents(header, st))
    && (forall h :: h in st.before && !(st.allowed && TouchesBlock(st, h)) ==>
          h in blocks' && BlockKept(st.mem, st.after, h))
    && (!st.allowed ==> st.after == st.mem)
    && (st.result.Fails? <==> st.allowed && Refused(header, top, st.op))
  }

  lemma StayingStep(a: Allocator, st: Step)
    requires Clean(a) && st.mem == st.after == a.mem && st.before == a.blocks && !st.allowed && st.result == Pointer(0)
    ensures StepKeeps(a.header, Pow2(a.width), st, a.blocks)
  {
    Unchanged(a.mem, Pow2(a.width), a.header, a.blocks);
  }

  /** A call that was made, as Do leaves it. */
  lemma DoneStep(a: Allocator, st: Step)
    requires st.allowed && (st.op.Free? || st.op.Write? ==> st.op.k < |st.before|)
    requires st.op.Realloc? && st.op.from.Some? ==> st.op.from.value < |st.before|
    requires ListFollows(st.before, a.header, st.op, st.result, a.blocks)
    requires st.result.Fails? <==> Refused(a.header, Pow2(a.width), st.op)
    requires forall i :: 0 <= i < |st.before| && !Touches(st.op, i) ==> BlockKept(st.mem, st.after, st.before[i])
    requires Serves(a.header, Pow2(a.width), st.op, st.result, st.mem, st.before, st.after, a.blocks)
    requires Linked(st.mem, a.header, st.before)
    ensures StepKeeps(a.header, Pow2(a.width), st, a.blocks)
  {
    hide Serves, Linked;
    var events := StepEvents(a.header, st);
    forall h | h in st.before && !TouchesBlock(st, h) ensures h in a.blocks && BlockKept(st.mem, st.after, h) {
      var i :| 0 <= i < |st.before| && st.before[i] == h;
      assert !Touches(st.op, i);
      StillThere(st.before, events, h);
    }
  }

  lemma {:induction false} StillThere(s: seq<nat>, events: seq<ListOp>, h: nat)
    requires h in s && Removed(h) !in events
    ensures h in RunList(s, events)
    decreases |events|
  {
    if events != [] {
      var e, rest := events[0], events[1..];
      if e.Added? {
        StillThere(s + [e.h], rest, h);
      } else {
        MinusKeeps(s, e.h, h);
        StillThere(Minus(s, e.h), rest, h);
      }
    }
  }

  lemma {:induction false} MinusKeeps(s: seq<nat>, gone: nat, h: nat)
    requires h in s && h != gone
    ensures h in Minus(s, gone)
    decreases |s|
  {
    if s[0] != gone && s[0] != h {
      MinusKeeps(s[1..], gone, h);
    }
  }

  /** One call, then the rest of the run. */
  lemma RunOn(header: nat, top: nat, st: Step, between: seq<nat>, rest: seq<Step>, m': Arena, blocks': seq<nat>)
    requires StepKeeps(header, top, st, between) && (st.allowed <==> AllowedIn(st.mem, header, top, st.before, st.op))
    requires Follows(header, top, st.after, between, rest) && m' == LastMemory(rest, st.after)
    requires RunKeeps(header, st.after, between, rest, m', blocks')
    ensures var trace := [st] + rest;
            && RunKeeps(header, st.mem, st.before, trace, m', blocks')
            && Follows(header, top, st.mem, st.before, trace) && m' == LastMemory(trace, st.mem)
  {
    var trace := [st] + rest;
    assert trace[1..] == rest;
    RunListConcat(st.before, StepEvents(header, st), RunEvents(header, rest));
    Untouching(st, rest);
    hide StepEvents, AllowedIn, TouchesBlock, RunList, Legal, Untouched, BlockKept;
    forall h | h in st.before && Untouched(trace, h) ensures h in blocks' && BlockKept(st.mem, m', h) {
      KeptTwice(st.mem, st.after, m', h);
    }
  }

  lemma Untouching(st: Step, rest: seq<Step>)
    ensures forall h :: Untouched([st] + rest, h) ==> Untouched(rest, h) && !(st.allowed && TouchesBlock(st, h))
  {
    var trace := [st] + rest;
    hide TouchesBlock;
    forall h | Untouched(trace, h) ensures Untouched(rest, h) && !(st.allowed && TouchesBlock(st, h)) {
      assert trace[0] == st && forall j :: 0 <= j < |rest| ==> rest[j] == trace[j + 1];
    }
  }

  lemma KeptTwice(m: Arena, m1: Arena, m2: Arena, h: nat)
    requires BlockKept(m, m1, h) && BlockKept(m1, m2, h)
    ensures BlockKept(m, m2, h)
  {
  }

  /** Leak accounting over runs: if the checkpoint's own block is not freed, the blocks that are
      counted are exactly those that the run allocated and did not free. */
  method LeaksOfRun(a: Allocator, ops: seq<ClientOp>) returns (count: nat, ghost cp: Option<nat>,
                    ghost trace: seq<Step>)
    requires Clean(a)
    modifies a
    ensures Clean(a) && |trace| == |ops| && forall j :: 0 <= j < |ops| ==> trace[j].op == ops[j]
    ensures Follows(a.header, Pow2(a.width), old(a.mem), old(a.blocks), trace)
    ensures cp == LastOf(old(a.blocks))
    ensures (cp.Some? ==> Removed(cp.value) !in RunEvents(a.header, trace)) ==>
              count == |RunList([], RunEvents(a.header, trace))|
  {
    hide Clean, Follows, RunEvents, RunList, Legal, Untouched, BlockKept, Since, Distinct;
    IsDistinct(a);
    var point := a.CheckPoint();
    cp := point;
    ghost var before := a.blocks;
    trace := Run(a, ops);
    IsDistinct(a);
    count := 0;
    if point.None? || point.value in a.blocks {
      count := a.DisplayAllocatedBlocks(point);
    }
    ghost var events := RunEvents(a.header, trace);
    if cp.Some? ==> Removed(cp.value) !in events {
      LeakAccounting(before, cp, events);
    }
  }

  lemma IsDistinct(a: Allocator)
    requires Clean(a)
    ensures a.Valid() && Distinct(a.blocks)
  {
    BlocksDistinct(a.mem, a.header, a.blocks);
  }

  // ---- What was written reads back

  /** The byte at the given offset of the payload of the block at h. */
  ghost predicate ByteIs(m: Arena, header: nat, h: nat, offset: nat, v: Byte) {
    && h in m.headers && offset < m.headers[h].size
    && h + header + GUARD + offset in m.bytes && m.bytes[h + header + GUARD + offset] == v
  }

  /** Where that byte is at the end of a run; None if it was overwritten, freed, or cut off by realloc. */
  function Tracked(header: nat, trace: seq<Step>, h: nat, offset: nat): Option<nat>
    decreases |trace|
  {
    if trace == [] then Some(h) else
    var st, rest := trace[0], trace[1..];
    if !st.allowed || st.result.Fails? || !TouchesBlock(st, h) then Tracked(header, rest, h, offset)
    else if st.op.Write? then (if st.op.offset == offset then None else Tracked(header, rest, h, offset))
    else if st.op.Realloc? && st.op.size > offset && st.result.address >= GUARD + header then
      Tracked(header, rest, st.result.address - GUARD - header, offset)
    else None
  }

  /** A byte reads back after any run, wherever realloc has moved it, until a call disposes of it. */
  lemma {:induction false} ReadsBack(header: nat, top: nat, m: Arena, blocks: seq<nat>, trace: seq<Step>, h: nat,
                                     offset: nat, v: Byte)
    requires Follows(header, top, m, blocks, trace) && h in blocks && ByteIs(m, header, h, offset, v)
    ensures var there := Tracked(header, trace, h, offset);
            there.Some? ==> ByteIs(LastMemory(trace, m), header, there.value, offset, v)
    decreases |trace|
  {
    hide *;
    if trace == [] {
      NoSteps(header, m, h, offset);
    } else {
      var st, rest := trace[0], trace[1..];
      var there := TrackedOnce(header, st, h, offset);
      TrackedStep(header, trace, h, offset);
      FollowsStep(header, top, m, blocks, trace);
      LastStep(trace, m);
      if there.Some? {
        ByteMoves(header, top, st, RunList(blocks, StepEvents(header, st)), h, offset, v);
        ReadsBack(header, top, st.after, RunList(blocks, StepEvents(header, st)), rest, there.value, offset, v);
      }
    }
  }

  lemma NoSteps(header: nat, m: Arena, h: nat, offset: nat)
    ensures Tracked(header, [], h, offset) == Some(h) && LastMemory([], m) == m
  {
  }

  lemma LastStep(trace: seq<Step>, m: Arena)
    requires trace != []
    ensures LastMemory(trace, m) == LastMemory(trace[1..], trace[0].after)
  {
  }

  /** Where one call takes the byte. */
  function TrackedOnce(header: nat, st: Step, h: nat, offset: nat): Option<nat> {
    if !st.allowed || st.result.Fails? || !TouchesBlock(st, h) then Some(h)
    else if st.op.Write? then (if st.op.offset == offset then None else Some(h))
    else if st.op.Realloc? && st.op.size > offset && st.result.address >= GUARD + header then
      Some(st.result.address - GUARD - header)
    else None
  }

  lemma TrackedStep(header: nat, trace: seq<Step>, h: nat, offset: nat)
    requires trace != []
    ensures Tracked(header, trace, h, offset) ==
            match TrackedOnce(header, trace[0], h, offset)
            case None => None
            case Some(h') => Tracked(header, trace[1..], h', offset)
  {
  }

  lemma FollowsStep(header: nat, top: nat, m: Arena, blocks: seq<nat>, trace: seq<Step>)
    requires Follows(header, top, m, blocks, trace) && trace != []
    ensures var st := trace[0]; var between := RunList(blocks, StepEvents(header, st));
            && st.mem == m && st.before == blocks && StepKeeps(header, top, st, between)
            && (st.allowed <==> AllowedIn(m, header, top, blocks, st.op))
            && Follows(header, top, st.after, between, trace[1..])
  {
  }

  /** One call leaves the byte where Tracked says it is. */
  lemma ByteMoves(header: nat, top: nat, st: Step, after: seq<nat>, h: nat, offset: nat, v: Byte)
    requires StepKeeps(header, top, st, after) && h in st.before && ByteIs(st.mem, header, h, offset, v)
    requires TrackedOnce(header, st, h, offset).Some?
    ensures var h' := TrackedOnce(header, st, h, offset).value;
            h' in after && ByteIs(st.after, header, h', offset, v)
  {
    hide RunList, Legal, StepEvents, Refused, Linked, BlockKept, Serves, TouchesBlock;
    if !st.allowed || !TouchesBlock(st, h) {
      ByteStays(header, st.mem, st.after, st.before, h, offset, v);
    } else {
      TouchedIs(st, h);
      if st.result.Fails? {
        FailedStep(header, top, st, after, h);
      } else if st.op.Write? {
        WriteMoves(header, top, st, after, h, offset, v);
      } else {
        ReallocMoves(header, top, st, after, h, offset, v);
      }
    }
  }

  lemma ByteStays(header: nat, m: Arena, m': Arena, blocks: seq<nat>, h: nat, offset: nat, v: Byte)
    requires Linked(m, header, blocks) && h in blocks && BlockKept(m, m', h) && ByteIs(m, header, h, offset, v)
    ensures ByteIs(m', header, h, offset, v)
  {
    var k :| 0 <= k < |blocks| && blocks[k] == h;
    assert Live(m, header, blocks[k]);
  }

  /** What a call that is about the block at h can be. */
  lemma TouchedIs(st: Step, h: nat)
    requires TouchesBlock(st, h)
    ensures st.op.Write? || st.op.Free? ==> st.op.k < |st.before| && st.before[st.op.k] == h
    ensures st.op.Realloc? ==> st.op.from.Some? && st.op.from.value < |st.before| && st.before[st.op.from.value] == h
    ensures st.op.Write? || st.op.Free? || st.op.Realloc?
  {
  }

  lemma FailedStep(header: nat, top: nat, st: Step, after: seq<nat>, h: nat)
    requires StepKeeps(header, top, st, after) && st.allowed && st.result.Fails? && h in st.before
    ensures st.after == st.mem && h in after
  {
    hide Linked, Legal, BlockKept, TouchesBlock;
    assert StepEvents(header, st) == [];
  }

  lemma WriteMoves(header: nat, top: nat, st: Step, after: seq<nat>, h: nat, offset: nat, v: Byte)
    requires StepKeeps(header, top, st, after) && st.allowed && st.op.Write? && !st.result.Fails?
    requires st.op.k < |st.before| && st.before[st.op.k] == h && ByteIs(st.mem, header, h, offset, v)
    requires st.op.offset != offset
    ensures h in after && ByteIs(st.after, header, h, offset, v)
  {
    hide Linked, Legal, BlockKept, TouchesBlock;
    assert StepEvents(header, st) == [];
  }

  lemma ReallocMoves(header: nat, top: nat, st: Step, after: seq<nat>, h: nat, offset: nat, v: Byte)
    requires StepKeeps(header, top, st, after) && st.allowed && st.op.Realloc? && !st.result.Fails?
    requires st.op.from.Some? && st.op.from.value < |st.before| && st.before[st.op.from.value] == h
    requires ByteIs(st.mem, header, h, offset, v) && offset < st.op.size
    ensures st.result.address > GUARD + header
    ensures st.result.address - GUARD - header in after
    ensures ByteIs(st.after, header, st.result.address - GUARD - header, offset, v)
  {
    hide Linked, Legal, BlockKept, TouchesBlock, StepEvents, RunList;
    assert Serves(header, top, st.op, st.result, st.mem, st.before, st.after, after);
    assert st.result.address + offset in st.after.bytes;
  }

  /** The part of a run behind its i-th call. */
  lemma {:induction false} FollowsFrom(header: nat, top: nat, m: Arena, blocks: seq<nat>, trace: seq<Step>, i: nat)
    returns (after: seq<nat>)
    requires Follows(header, top, m, blocks, trace) && i < |trace|
    ensures StepKeeps(header, top, trace[i], after)
    ensures Follows(header, top, trace[i].after, after, trace[i + 1..])
    ensures LastMemory(trace[i + 1..], trace[i].after) == LastMemory(trace, m)
    decreases i
  {
    hide *;
    FollowsStep(header, top, m, blocks, trace);
    LastStep(trace, m);
    after := RunList(blocks, StepEvents(header, trace[0]));
    if i > 0 {
      after := FollowsFrom(header, top, trace[0].after, after, trace[1..], i - 1);
      assert trace[1..][i - 1..][1..] == trace[i + 1..];
      assert trace[1..][i..] == trace[i + 1..];
    }
  }

  /** A byte that was written in a run is there at its end, unless a later call disposed of it. */
  lemma WriteReadsBack(header: nat, top: nat, m: Arena, blocks: seq<nat>, trace: seq<Step>, i: nat)
    requires Follows(header, top, m, blocks, trace) && i < |trace|
    requires trace[i].allowed && trace[i].op.Write? && !trace[i].result.Fails?
    requires AllowedIn(trace[i].mem, header, top, trace[i].before, trace[i].op)
    ensures var st := trace[i];
            var there := Tracked(header, trace[i + 1..], st.before[st.op.k], st.op.offset);
            there.Some? ==> ByteIs(LastMemory(trace, m), header, there.value, st.op.offset, st.op.value)
  {
    hide *;
    var st := trace[i];
    var after := FollowsFrom(header, top, m, blocks, trace, i);
    Written(header, top, st, after);
    ReadsBack(header, top, st.after, after, trace[i + 1..], st.before[st.op.k], st.op.offset, st.op.value);
  }

  lemma Written(header: nat, top: nat, st: Step, after: seq<nat>)
    requires StepKeeps(header, top, st, after) && st.allowed && st.op.Write? && !st.result.Fails?
    requires AllowedIn(st.mem, header, top, st.before, st.op)
    ensures st.op.k < |st.before| && st.before[st.op.k] in after
    ensures ByteIs(st.after, header, st.before[st.op.k], st.op.offset, st.op.value)
  {
    hide Linked, Legal, BlockKept, TouchesBlock;
    assert StepEvents(header, st) == [];
  }

  /** Memory from calloc reads as zero at the end of a run, as far as no later call disposed of it. */
  lemma CallocReadsZero(header: nat, top: nat, m: Arena, blocks: seq<nat>, trace: seq<Step>, i: nat, offset: nat)
    requires Follows(header, top, m, blocks, trace) && i < |trace|
    requires trace[i].allowed && trace[i].op.Calloc? && !trace[i].result.Fails?
    requires offset < trace[i].op.number * trace[i].op.size < top
    ensures trace[i].result.address > GUARD + header
    ensures var there := Tracked(header, trace[i + 1..], trace[i].result.address - GUARD - header, offset);
            there.Some? ==> ByteIs(LastMemory(trace, m), header, there.value, offset, 0)
  {
    hide *;
    var st := trace[i];
    var after := FollowsFrom(header, top, m, blocks, trace, i);
    Zeroed(header, top, st, after, offset);
    ReadsBack(header, top, st.after, after, trace[i + 1..], st.result.address - GUARD - header, offset, 0);
  }

  lemma Zeroed(header: nat, top: nat, st: Step, after: seq<nat>, offset: nat)
    requires StepKeeps(header, top, st, after) && st.allowed && st.op.Calloc? && !st.result.Fails?
    requires offset < st.op.number * st.op.size < top
    ensures st.result.address > GUARD + header && st.result.address - GUARD - header in after
    ensures ByteIs(st.after, header, st.result.address - GUARD - header, offset, 0)
  {
    hide Linked, Legal, BlockKept, TouchesBlock, StepEvents, RunList;
    assert Serves(header, top, st.op, st.result, st.mem, st.before, st.after, after);
  }

  // ---- Calls in a row, as a client sees them

  /** A byte of memory from malloc can be written, and reads back. */
  method WriteThenRead(a: Allocator, size: nat, found: nat, offset: nat, v: Byte)
    requires Clean(a) && Sum(a.header, size) < Pow2(a.width) && offset < size
    requires Possible(a.mem, Pow2(a.width), Some(found), Sum(a.header, size))
    modifies a
    ensures Clean(a) && |a.blocks| == |old(a.blocks)| + 1 && a.blocks[..|old(a.blocks)|] == old(a.blocks)
    ensures ByteIs(a.mem, a.header, a.blocks[|old(a.blocks)|], offset, v)
  {
    hide Clean, Serves, ListFollows, EventsOf, BlockKept, Pow2, Possible, Allowed;
    ghost var top, m, before := Pow2(a.width), a.mem, a.blocks;
    var k := |a.blocks|;
    var op := Malloc(size, Some(found));
    AllowedHere(a, op);
    var r := Do(a, op);
    Placed(a.header, top, op, r, m, before, a.mem, a.blocks);
    op := Write(k, offset, v);
    AllowedHere(a, op);
    ghost var m1, b1 := a.mem, a.blocks;
    r := Do(a, op);
    ByteWritten(a.header, top, op, r, m1, b1, a.mem, a.blocks);
  }

  /** Memory from calloc reads as zero. */
  method CallocThenRead(a: Allocator, number: nat, size: nat, found: nat, offset: nat)
    requires Clean(a) && number < Pow2(a.width) && size < Pow2(a.width)
    requires Sum(a.header, number * size) < Pow2(a.width) && offset < number * size
    requires Possible(a.mem, Pow2(a.width), Some(found), Sum(a.header, number * size))
    modifies a
    ensures Clean(a) && |a.blocks| == |old(a.blocks)| + 1 && a.blocks[..|old(a.blocks)|] == old(a.blocks)
    ensures ByteIs(a.mem, a.header, a.blocks[|old(a.blocks)|], offset, 0)
  {
    hide Clean, Serves, ListFollows, EventsOf, BlockKept, Pow2, Possible, Allowed, ByteIs;
    ghost var m, before := a.mem, a.blocks;
    var op := Calloc(number, size, Some(found));
    AllowedHere(a, op);
    var r := Do(a, op);
    PlacedZero(a.header, Pow2(a.width), op, r, m, before, a.mem, a.blocks, offset);
  }

  /** A block that realloc moves takes its bytes along; it comes last in the list then. */
  method ReallocThenRead(a: Allocator, k: nat, size: nat, found: nat, offset: nat, v: Byte)
    requires Clean(a) && k < |a.blocks| && offset < size && Sum(a.header, size) < Pow2(a.width)
    requires ByteIs(a.mem, a.header, a.blocks[k], offset, v)
    requires Possible(a.mem, Pow2(a.width), Some(found), Sum(a.header, size))
    modifies a
    ensures Clean(a) && |a.blocks| == |old(a.blocks)|
    ensures a.blocks[..|a.blocks| - 1] == old(a.blocks)[..k] + old(a.blocks)[k + 1..]
    ensures ByteIs(a.mem, a.header, a.blocks[|a.blocks| - 1], offset, v)
  {
    hide Clean, Serves, ListFollows, EventsOf, BlockKept, Pow2, Possible, Allowed, ByteIs, Distinct;
    IsDistinct(a);
    ghost var m, before := a.mem, a.blocks;
    var op := Realloc(Some(k), size, Some(found));
    AllowedHere(a, op);
    var r := Do(a, op);
    PlacedAgain(a.header, Pow2(a.width), op, r, m, before, a.mem, a.blocks, offset, v);
  }

  /** A block that is given back is no longer in the list; the others are, in the same order. */
  method FreeGivesBack(a: Allocator, k: nat) returns (r: Result)
    requires Clean(a) && k < |a.blocks|
    modifies a
    ensures Clean(a) && r == Pointer(0) && a.blocks == old(a.blocks)[..k] + old(a.blocks)[k + 1..]
  {
    hide Clean, Serves, ListFollows, EventsOf, BlockKept, Pow2, Allowed, Distinct;
    IsDistinct(a);
    ghost var m, before := a.mem, a.blocks;
    AllowedHere(a, Free(k));
    r := Do(a, Free(k));
    Gone(a.header, Pow2(a.width), Free(k), r, m, before, a.mem, a.blocks);
  }

  /** One byte that is written before or behind a payload is found when the block is freed, unless it is
      the byte that was there. */
  method OverrunDetected(a: Allocator, k: nat, x: nat, v: Byte) returns (r: Result)
    requires Clean(a) && k < |a.blocks| && a.blocks[k] in a.mem.headers
    requires
      || UserOf(a, k) - GUARD <= x < UserOf(a, k)
      || UserOf(a, k) + a.mem.headers[a.blocks[k]].size <= x < UserOf(a, k) + a.mem.headers[a.blocks[k]].size + GUARD
    modifies a
    ensures r.Fails? <==> v != GUARD_PATTERN
    ensures if r.Fails? then a.blocks == old(a.blocks) else a.blocks == old(a.blocks)[..k] + old(a.blocks)[k + 1..]
  {
    hide *;
    ghost var m, before := a.mem, a.blocks;
    IsDistinct(a);
    var user := UserOf(a, k);
    UserIs(a, k);
    GuardByte(a, k, x);
    a.ClientWrite(x, v);
    DamagedByOne(m, a.mem, a.header, before, k, x, v);
    UserIs(a, k);
    ghost var m1 := a.mem;
    r := a.TestFree(user);
    if r.Pointer? {
      WithoutOne(m1, before, a.mem, a.blocks, a.header, k);
    }
  }

  lemma UserIs(a: Allocator, k: nat)
    requires a.Valid() && k < |a.blocks|
    ensures a.Owns(UserOf(a, k)) && UserOf(a, k) == a.blocks[k] + a.header + GUARD
    ensures Linked(a.mem, a.header, a.blocks)
  {
  }

  lemma Placed(header: nat, top: nat, op: ClientOp, r: Result, m: Arena, before: seq<nat>, m': Arena,
               after: seq<nat>)
    requires op.Malloc? && !r.Fails? && ListFollows(before, header, op, r, after)
    requires Serves(header, top, op, r, m, before, m', after)
    ensures after == before + [r.address - GUARD - header]
    ensures after[|before|] in m'.headers && m'.headers[after[|before|]].size == op.size
  {
    OneEvent(before, Added(r.address - GUARD - header));
  }

  lemma PlacedZero(header: nat, top: nat, op: ClientOp, r: Result, m: Arena, before: seq<nat>, m': Arena,
                   after: seq<nat>, offset: nat)
    requires op.Calloc? && !r.Fails? && ListFollows(before, header, op, r, after)
    requires Serves(header, top, op, r, m, before, m', after) && offset < op.number * op.size < top
    ensures |after| == |before| + 1 && after[..|before|] == before
    ensures ByteIs(m', header, after[|before|], offset, 0)
  {
    OneEvent(before, Added(r.address - GUARD - header));
    assert r.address + offset in m'.bytes;
  }

  lemma ByteWritten(header: nat, top: nat, op: ClientOp, r: Result, m: Arena, before: seq<nat>, m': Arena,
                    after: seq<nat>)
    requires op.Write? && !r.Fails? && op.k < |before| && ListFollows(before, header, op, r, after)
    requires Serves(header, top, op, r, m, before, m', after)
    requires before[op.k] in m.headers && op.offset < m.headers[before[op.k]].size
    ensures after == before && ByteIs(m', header, after[op.k], op.offset, op.value)
  {
    OneEvent(before, Added(0));
  }

  lemma PlacedAgain(header: nat, top: nat, op: ClientOp, r: Result, m: Arena, before: seq<nat>, m': Arena,
                    after: seq<nat>, offset: nat, v: Byte)
    requires op.Realloc? && op.from.Some? && op.from.value < |before| && op.size > 0 && !r.Fails?
    requires Distinct(before) && ListFollows(before, header, op, r, after)
    requires Serves(header, top, op, r, m, before, m', after)
    requires offset < op.size && ByteIs(m, header, before[op.from.value], offset, v)
    ensures |after| == |before|
    ensures after[..|after| - 1] == before[..op.from.value] + before[op.from.value + 1..]
    ensures ByteIs(m', header, after[|after| - 1], offset, v)
  {
    hide RunList, Legal, Minus, Distinct;
    TwoEvents(before, before[op.from.value], r.address - GUARD - header);
    MinusElements(before, op.from.value, Minus(before, before[op.from.value]));
    assert r.address + offset in m'.bytes;
  }

  lemma Gone(header: nat, top: nat, op: ClientOp, r: Result, m: Arena, before: seq<nat>, m': Arena, after: seq<nat>)
    requires op.Free? && op.k < |before| && Distinct(before) && ListFollows(before, header, op, r, after)
    requires !r.Fails? && Serves(header, top, op, r, m, before, m', after)
    ensures r == Pointer(0) && after == before[..op.k] + before[op.k + 1..]
  {
    hide RunList, Legal, Minus, Distinct;
    OneEvent(before, Removed(before[op.k]));
    MinusElements(before, op.k, Minus(before, before[op.k]));
  }

  /** A byte of a guard is in no header. */
  lemma GuardByte(a: Allocator, k: nat, x: nat)
    requires Clean(a) && k < |a.blocks| && a.blocks[k] in a.mem.headers
    requires
      || UserOf(a, k) - GUARD <= x < UserOf(a, k)
      || UserOf(a, k) + a.mem.headers[a.blocks[k]].size <= x < UserOf(a, k) + a.mem.headers[a.blocks[k]].size + GUARD
    ensures a.Valid() && x in a.mem.bytes && forall i :: 0 <= i < |a.blocks| ==> Apart(a.blocks[i], a.header, x, 1)
    ensures Intact(a.mem, a.header, a.blocks[k])
  {
    PayloadThere(a.mem, Pow2(a.width), a.header, a.blocks, UserOf(a, k));
    forall i | 0 <= i < |a.blocks| ensures Apart(a.blocks[i], a.header, x, 1) {
      LinkedLive(a.mem, a.header, a.blocks, k);
      LinkedLive(a.mem, a.header, a.blocks, i);
      if i != k {
        BlocksApart(a.mem, Pow2(a.width), a.header, a.blocks, i, k);
      }
    }
  }

  lemma DamagedByOne(m: Arena, m': Arena, header: nat, blocks: seq<nat>, k: nat, x: nat, v: Byte)
    requires k < |blocks| && SameHeaders(m, m', blocks) && m'.bytes == m.bytes[x := v]
    requires blocks[k] in m.headers && Intact(m, header, blocks[k])
    requires
      || blocks[k] + header <= x < blocks[k] + header + GUARD
      || blocks[k] + header + GUARD + m.headers[blocks[k]].size <= x
         < blocks[k] + header + GUARD + m.headers[blocks[k]].size + GUARD
    ensures blocks[k] in m'.headers && (Intact(m', header, blocks[k]) <==> v == GUARD_PATTERN)
  {
    SameHeaderAt(m, m', blocks, k);
    assert m'.bytes[x] == v;
  }

  lemma WithoutOne(m: Arena, before: seq<nat>, m': Arena, after: seq<nat>, header: nat, k: nat)
    requires Linked(m, header, before) && k < |before| && Released(m, before, m', after, before[k])
    ensures after == before[..k] + before[k + 1..]
  {
    hide *;
    BlocksDistinct(m, header, before);
    ReleasedIs(m, before, m', after, before[k]);
    MinusElements(before, k, after);
  }
}
