// The guarded allocator: test_malloc and its relatives, on a memory of bytes. A header is kept
// beside the bytes, by its address; writing a byte of it destroys it, so Dafny checks that every
// header that is read is still the one test_malloc wrote.
module Allocator {
  import opened Wrappers
  import opened Sequences
  import opened Words

  const GUARD := 16
  const ALIGN := 16
  const GUARD_PATTERN: Byte := 0xEF
  const ALLOC_PATTERN: Byte := 0xBA
  const FREE_PATTERN: Byte := 0xCD

  /** struct MallocBlockInfoData, without the source location and the list node. */
  datatype Header = Header(block: nat, total: nat, size: nat)

  /** bytes: the memory that may be accessed; headers: the headers in it; regions: the sizes of the
      blocks that libc handed out, by their addresses. */
  datatype Arena = Arena(bytes: map<nat, Byte>, headers: map<nat, Header>, regions: map<nat, nat>)

  /** An address (0 is null), or a jump out of the test. */
  datatype Result = Pointer(address: nat) | Fails

  /** The size of a block of libc: header, payload, two guards, and room for the alignment. */
  function Sum(header: nat, size: nat): nat {
    size + 2 * GUARD + header + ALIGN
  }

  predicate Apart(a: nat, n: nat, b: nat, k: nat) {
    n == 0 || k == 0 || a + n <= b || b + k <= a
  }

  ghost predicate Has(m: Arena, a: nat, n: nat) {
    forall x :: a <= x < a + n ==> x in m.bytes
  }

  ghost predicate Filled(m: Arena, a: nat, n: nat, v: Byte) {
    forall x :: a <= x < a + n ==> x in m.bytes && m.bytes[x] == v
  }

  /** The bytes that were there are still there, but for those from a to a + n. */
  ghost predicate SameBut(m: Arena, m': Arena, a: nat, n: nat) {
    forall x :: x in m.bytes && !(a <= x < a + n) ==> x in m'.bytes && m'.bytes[x] == m.bytes[x]
  }

  /** The n bytes at dst in m' are those at src in m. */
  ghost predicate Copied(m: Arena, src: nat, m': Arena, dst: nat, n: nat) {
    forall x {:trigger x in m'.bytes} :: dst <= x < dst + n ==>
      x in m'.bytes && src + (x - dst) in m.bytes && m'.bytes[x] == m.bytes[src + (x - dst)]
  }

  /** libc's blocks are in the address space and do not overlap. */
  ghost predicate Sane(m: Arena, top: nat) {
    && (forall b {:trigger b in m.regions} :: b in m.regions ==>
          0 < b && 0 < m.regions[b] && b + m.regions[b] <= top && Has(m, b, m.regions[b]))
    && (forall b, c {:trigger b in m.regions, c in m.regions} :: b in m.regions && c in m.regions && b != c ==>
          Apart(b, m.regions[b], c, m.regions[c]))
  }

  /** The block with its header at h: front guard, payload and rear guard follow the header, all
      inside one block of libc, and the payload is aligned. */
  ghost predicate Live(m: Arena, header: nat, h: nat) {
    && h in m.headers
    && var i := m.headers[h];
       && i.block in m.regions && m.regions[i.block] == i.total
       && i.block <= h && h + header + GUARD + i.size + GUARD <= i.block + i.total
       && (h + header + GUARD) % ALIGN == 0
  }

  /** The blocks in the list are live, each in a block of libc of its own. */
  ghost predicate Linked(m: Arena, header: nat, blocks: seq<nat>) {
    && (forall i {:trigger blocks[i]} :: 0 <= i < |blocks| ==> Live(m, header, blocks[i]))
    && (forall i, j {:trigger blocks[i], blocks[j]} :: 0 <= i < j < |blocks| ==>
          m.headers[blocks[i]].block != m.headers[blocks[j]].block)
  }

  ghost predicate Intact(m: Arena, header: nat, h: nat)
    requires h in m.headers
  {
    && Filled(m, h + header, GUARD, GUARD_PATTERN)
    && Filled(m, h + header + GUARD + m.headers[h].size, GUARD, GUARD_PATTERN)
  }

  /** The block at ptr is not one of those before, and its header and its guards are as they should be. */
  ghost predicate Guarded(m: Arena, header: nat, ptr: nat, block: nat, size: nat, before: seq<nat>) {
    && ptr > GUARD + header && ptr % ALIGN == 0
    && var h := ptr - GUARD - header;
    && h !in before && h in m.headers
    && m.headers[h] == Header(block, Sum(header, size), size)
    && Intact(m, header, h)
  }

  /** The block with its header at h is gone, and nothing else is. */
  ghost predicate Released(m: Arena, before: seq<nat>, m': Arena, after: seq<nat>, h: nat) {
    && h in m.headers
    && var i := m.headers[h];
    && after == Minus(before, h)
    && m'.regions == m.regions - {i.block}
    && SameBut(m, m', i.block, i.total)
    && (forall x :: x in m'.bytes ==> x in m.bytes && !(i.block <= x < i.block + i.total))
    && SameHeaders(m, m', after)
  }

  ghost predicate SameHeaders(m: Arena, m': Arena, blocks: seq<nat>) {
    forall k {:trigger blocks[k]} :: 0 <= k < |blocks| ==>
      blocks[k] in m.headers && blocks[k] in m'.headers && m'.headers[blocks[k]] == m.headers[blocks[k]]
  }

  /** The headers that a write from a to a + n leaves alone. */
  function Cleared(headers: map<nat, Header>, header: nat, a: nat, n: nat): map<nat, Header> {
    map h | h in headers && Apart(h, header, a, n) :: headers[h]
  }

  ghost predicate HeadersKept(m: Arena, m': Arena, header: nat, a: nat, n: nat) {
    forall h :: h in m.headers && Apart(h, header, a, n) ==> h in m'.headers && m'.headers[h] == m.headers[h]
  }

  /** A change inside one block of libc leaves the blocks elsewhere as they are. */
  lemma LinkedElsewhere(m: Arena, m': Arena, top: nat, header: nat, blocks: seq<nat>, block: nat)
    requires Sane(m, top) && Linked(m, header, blocks)
    requires block in m.regions && HeadersKept(m, m', header, block, m.regions[block])
    requires forall b :: b in m.regions && b != block ==> b in m'.regions && m'.regions[b] == m.regions[b]
    requires forall i :: 0 <= i < |blocks| ==> m.headers[blocks[i]].block != block
    ensures Linked(m', header, blocks)
    ensures SameHeaders(m, m', blocks)
    ensures m'.bytes.Keys == m.bytes.Keys && m'.regions == m.regions ==> Sane(m', top)
  {
    forall i | 0 <= i < |blocks| ensures Live(m', header, blocks[i]) && m'.headers[blocks[i]] == m.headers[blocks[i]] {
      assert Live(m, header, blocks[i]) && Apart(blocks[i], header, block, m.regions[block]);
    }
  }

  lemma LinkedAppend(m: Arena, header: nat, blocks: seq<nat>, h: nat)
    requires Linked(m, header, blocks) && Live(m, header, h)
    requires forall i :: 0 <= i < |blocks| ==>
               blocks[i] in m.headers && m.headers[blocks[i]].block != m.headers[h].block
    ensures Linked(m, header, blocks + [h]) && h !in blocks
  {
  }

  /** New memory, with any contents. */
  function Contents(a: nat, n: nat): (r: map<nat, Byte>)
    ensures forall x :: x in r <==> a <= x < a + n
  {
    if n == 0 then map[] else Contents(a, n - 1)[a + n - 1 := 0]
  }

  /** Memory in use and memory not in use do not overlap. */
  lemma NotInUse(m: Arena, b: nat, n: nat, block: nat, k: nat)
    requires Has(m, b, n) && n > 0 && k > 0 && forall x :: block <= x < block + k ==> x !in m.bytes
    ensures Apart(b, n, block, k) && b != block
  {
    var x := if b < block then block else b;
    assert b <= x < b + n ==> x in m.bytes;
  }

  /** Changes to memory that was not in use change nothing that was. */
  lemma NothingLost(m: Arena, m1: Arena, m2: Arena, a: nat, n: nat)
    requires SameBut(m, m1, a, n) && SameBut(m1, m2, a, n)
    requires forall x :: x in m.bytes ==> !(a <= x < a + n)
    ensures SameBut(m, m2, 0, 0)
  {
  }

  // ---- The list of blocks

  /** list_remove of the one node at h. */
  function Minus(s: seq<nat>, h: nat): (r: seq<nat>)
    ensures h !in s ==> r == s
  {
    if s == [] then [] else if s[0] == h then s[1..] else [s[0]] + Minus(s[1..], h)
  }

  lemma {:induction false} MinusAt(s: seq<nat>, k: nat)
    requires k < |s| && forall i :: 0 <= i < k ==> s[i] != s[k]
    ensures Minus(s, s[k]) == s[..k] + s[k + 1..]
    decreases |s|
  {
    if k > 0 {
      assert s[1..][k - 1] == s[k];
      MinusAt(s[1..], k - 1);
      assert [s[0]] + (s[1..][..k - 1] + s[1..][k..]) == s[..k] + s[k + 1..];
    }
  }

  /** Taking a block out of the list leaves the others linked, and none of them is in its region. */
  lemma LinkedMinus(m: Arena, header: nat, blocks: seq<nat>, h: nat)
    requires Linked(m, header, blocks) && h in blocks
    ensures h in m.headers && Live(m, header, h)
    ensures Linked(m, header, Minus(blocks, h)) && h !in Minus(blocks, h)
    ensures forall i :: 0 <= i < |Minus(blocks, h)| ==>
              var b := Minus(blocks, h)[i]; b in blocks && b in m.headers && m.headers[b].block != m.headers[h].block
  {
    var k :| 0 <= k < |blocks| && blocks[k] == h;
    var rest := Minus(blocks, h);
    BlocksDistinct(m, header, blocks);
    MinusElements(blocks, k, rest);
    LinkedRest(m, header, blocks, k, rest);
  }

  /** What is left of a list without its k-th element. */
  lemma MinusElements(s: seq<nat>, k: nat, rest: seq<nat>)
    requires Distinct(s) && k < |s| && rest == Minus(s, s[k])
    ensures |rest| == |s| - 1 && forall i :: 0 <= i < |rest| ==> rest[i] == s[if i < k then i else i + 1]
    ensures rest == s[..k] + s[k + 1..]
  {
    assert forall i :: 0 <= i < k ==> s[i] != s[k];
    hide Minus, Distinct;
    MinusAt(s, k);
    RestAt(s, k, rest);
  }

  lemma LinkedRest(m: Arena, header: nat, blocks: seq<nat>, k: nat, rest: seq<nat>)
    requires Linked(m, header, blocks) && k < |blocks| && |rest| == |blocks| - 1
    requires forall i :: 0 <= i < |rest| ==> rest[i] == blocks[if i < k then i else i + 1]
    ensures Live(m, header, blocks[k]) && Linked(m, header, rest)
    ensures forall i :: 0 <= i < |rest| ==>
              && rest[i] in blocks && rest[i] in m.headers
              && m.headers[rest[i]].block != m.headers[blocks[k]].block && rest[i] != blocks[k]
  {
    hide Live;
    assert Live(m, header, blocks[k]);
    LiveThere(m, header, blocks[k]);
    forall i | 0 <= i < |rest|
      ensures Live(m, header, rest[i]) && rest[i] in m.headers
      ensures m.headers[rest[i]].block != m.headers[blocks[k]].block && rest[i] in blocks
    {
      var l := if i < k then i else i + 1;
      assert rest[i] == blocks[l] && Live(m, header, blocks[l]);
      LiveThere(m, header, blocks[l]);
    }
  }

  lemma LiveThere(m: Arena, header: nat, h: nat)
    requires Live(m, header, h)
    ensures h in m.headers
  {
  }

  /** The headers of the blocks are the same, and so is what their guards say. */
  ghost predicate BlocksKept(m: Arena, m': Arena, header: nat, blocks: seq<nat>) {
    forall i {:trigger blocks[i]} :: 0 <= i < |blocks| ==>
      && blocks[i] in m.headers && blocks[i] in m'.headers && m'.headers[blocks[i]] == m.headers[blocks[i]]
      && (Intact(m, header, blocks[i]) <==> Intact(m', header, blocks[i]))
  }

  lemma PayloadThere(m: Arena, top: nat, header: nat, blocks: seq<nat>, ptr: nat)
    requires Linked(m, header, blocks) && Sane(m, top) && ptr >= GUARD + header && ptr - GUARD - header in blocks
    ensures var h := ptr - GUARD - header;
            && h in m.headers && Has(m, ptr, m.headers[h].size)
            && Has(m, h + header, GUARD) && Has(m, ptr + m.headers[h].size, GUARD)
            && m.headers[h].block in m.regions && Has(m, m.headers[h].block, m.headers[h].total)
            && m.regions[m.headers[h].block] == m.headers[h].total
  {
    var k :| 0 <= k < |blocks| && blocks[k] == ptr - GUARD - header;
    assert Live(m, header, blocks[k]);
    assert m.headers[blocks[k]].block in m.regions;
  }

  lemma ClearedKept(m: Arena, m': Arena, header: nat, a: nat, n: nat)
    requires m'.headers == Cleared(m.headers, header, a, n)
    ensures HeadersKept(m, m', header, a, n)
  {
  }

  lemma FreedElsewhere(m: Arena, m': Arena, top: nat, header: nat, blocks: seq<nat>, block: nat)
    requires Sane(m, top) && Linked(m, header, blocks) && block in m.regions
    requires m'.regions == m.regions - {block} && m'.headers == m.headers && SameBut(m, m', block, m.regions[block])
    requires forall i :: 0 <= i < |blocks| ==> m.headers[blocks[i]].block != block
    ensures Sane(m', top) && Linked(m', header, blocks)
  {
    forall b | b in m'.regions ensures Has(m', b, m'.regions[b]) {
      assert Apart(b, m.regions[b], block, m.regions[block]);
    }
    forall i | 0 <= i < |blocks| ensures Live(m', header, blocks[i]) {
      assert Live(m, header, blocks[i]);
    }
  }

  /** Writing to the payload of a block leaves every header and every guard alone. */
  lemma PayloadWritten(m: Arena, m': Arena, top: nat, header: nat, blocks: seq<nat>, ptr: nat, n: nat)
    requires Linked(m, header, blocks) && Sane(m, top) && ptr >= GUARD + header && ptr - GUARD - header in blocks
    requires ptr - GUARD - header in m.headers && n <= m.headers[ptr - GUARD - header].size
    requires m'.bytes.Keys == m.bytes.Keys && m'.regions == m.regions && SameBut(m, m', ptr, n)
    requires m'.headers == Cleared(m.headers, header, ptr, n)
    ensures Linked(m', header, blocks) && Sane(m', top) && BlocksKept(m, m', header, blocks)
  {
    var h := ptr - GUARD - header;
    var k :| 0 <= k < |blocks| && blocks[k] == h;
    forall i | 0 <= i < |blocks|
      ensures blocks[i] in m.headers && blocks[i] in m'.headers && m'.headers[blocks[i]] == m.headers[blocks[i]]
      ensures Live(m', header, blocks[i])
      ensures Intact(m, header, blocks[i]) <==> Intact(m', header, blocks[i])
    {
      assert Live(m, header, blocks[i]) && Live(m, header, blocks[k]);
      if i != k {
        BlocksApart(m, top, header, blocks, i, k);
      }
    }
  }

  lemma BlocksApart(m: Arena, top: nat, header: nat, blocks: seq<nat>, i: nat, k: nat)
    requires Linked(m, header, blocks) && Sane(m, top) && i < |blocks| && k < |blocks| && i != k
    ensures Live(m, header, blocks[i]) && Live(m, header, blocks[k])
    ensures var a, b := m.headers[blocks[i]], m.headers[blocks[k]];
            Apart(a.block, a.total, b.block, b.total) && a.total > 0 && b.total > 0
  {
  }

  /** What libc malloc may answer: nothing, or a block of memory that is not in use. */
  predicate Possible(m: Arena, top: nat, answer: Option<nat>, n: nat) {
    answer.Some? ==>
      && 0 < answer.value && answer.value + n <= top
      && forall x :: answer.value <= x < answer.value + n ==> x !in m.bytes
  }

  /** Masking with ~(ALIGN - 1), on words that are wide enough. */
  lemma RoundsDown(x: nat, width: nat)
    requires x < Pow2(width) && ALIGN < Pow2(width)
    ensures ALIGN - 1 < Pow2(width) && BitAnd(x, Not(ALIGN - 1, width)) == x - x % ALIGN
  {
    SixteenIsPower();
    hide BitAnd, Pow2, Not;
    if width < 4 {
      Pow2Grows(width, 4);
    }
    AlignDownRounds(x, 4, width);
  }

  lemma SixteenIsPower()
    ensures Pow2(4) == ALIGN
  {
  }

  class Allocator {
    const header: nat  // sizeof(struct MallocBlockInfoData)
    const width: nat   // the number of bits in a size_t
    var mem: Arena
    var blocks: seq<nat>  // the list of allocated blocks, by the addresses of their headers

    constructor (header: nat, width: nat)
      requires header > 0 && GUARD + GUARD + header + ALIGN < Pow2(width)
      ensures Valid() && this.header == header && this.width == width && blocks == [] &&
              mem == Arena(map[], map[], map[])
    {
      this.header, this.width := header, width;
      mem, blocks := Arena(map[], map[], map[]), [];
    }

    ghost predicate Valid()
      reads this
    {
      && header > 0 && GUARD + GUARD + header + ALIGN < Pow2(width)
      && Sane(mem, Pow2(width)) && Linked(mem, header, blocks)
    }

    predicate Available(answer: Option<nat>, n: nat)
      reads this
    {
      Possible(mem, Pow2(width), answer, n)
    }

    /** A block of the size, with its header and guards, is no larger than what a size_t holds. */
    predicate Fits(size: nat) {
      Sum(header, size) < Pow2(width)
    }

    /** What libc answers when test_malloc asks for memory. If the sum of the parts wraps it must not
        ask, so nothing is known of the answer then. */
    predicate Answers(answer: Option<nat>, size: nat)
      reads this
    {
      Fits(size) ==> Available(answer, Sum(header, size))
    }

    /** malloc of libc; what the new bytes hold is not known. */
    method LibcMalloc(block: nat, n: nat)
      requires Valid() && Available(Some(block), n) && n > 0
      modifies this
      ensures Valid() && blocks == old(blocks)
      ensures mem.headers == old(mem.headers) && mem.regions == old(mem.regions)[block := n]
      ensures block !in old(mem.regions) && Has(mem, block, n) && SameBut(old(mem), mem, block, n)
      ensures forall x :: x in old(mem.bytes) ==> !(block <= x < block + n)
      ensures forall i :: 0 <= i < |blocks| ==> mem.headers[blocks[i]].block != block
    {
      ghost var m := mem;
      forall b | b in m.regions ensures Apart(b, m.regions[b], block, n) && b != block {
        NotInUse(m, b, m.regions[b], block, n);
      }
      mem := mem.(bytes := mem.bytes + Contents(block, n), regions := mem.regions[block := n]);
      forall i | 0 <= i < |blocks| ensures Live(mem, header, blocks[i]) && mem.headers[blocks[i]].block != block {
        assert Live(m, header, blocks[i]);
      }
    }

    /** memset. */
    method Memset(a: nat, v: Byte, n: nat)
      requires Has(mem, a, n)
      modifies this
      ensures mem.bytes.Keys == old(mem.bytes.Keys) && Filled(mem, a, n, v) && SameBut(old(mem), mem, a, n)
      ensures mem.headers == Cleared(old(mem.headers), header, a, n)
      ensures mem.regions == old(mem.regions) && blocks == old(blocks)
    {
      mem := mem.(bytes := map x | x in mem.bytes :: if a <= x < a + n then v else mem.bytes[x],
                  headers := Cleared(mem.headers, header, a, n));
    }

    /** memcpy. */
    method Memcpy(dst: nat, src: nat, n: nat)
      requires Has(mem, dst, n) && Has(mem, src, n)
      modifies this
      ensures mem.bytes.Keys == old(mem.bytes.Keys) && Copied(old(mem), src, mem, dst, n) &&
              SameBut(old(mem), mem, dst, n)
      ensures mem.headers == Cleared(old(mem.headers), header, dst, n)
      ensures mem.regions == old(mem.regions) && blocks == old(blocks)
    {
      mem := mem.(bytes := map x | x in mem.bytes ::
                    if dst <= x < dst + n then mem.bytes[src + (x - dst)] else mem.bytes[x],
                  headers := Cleared(mem.headers, header, dst, n));
    }

    /** The header is written; what its bytes then hold is not modelled. */
    method StoreHeader(h: nat, info: Header)
      requires Has(mem, h, header)
      modifies this
      ensures mem == old(mem).(headers := Cleared(old(mem.headers), header, h, header)[h := info]) &&
              blocks == old(blocks)
    {
      mem := mem.(headers := Cleared(mem.headers, header, h, header)[h := info]);
    }

    /** free of libc. */
    method LibcFree(block: nat)
      requires block in mem.regions
      modifies this
      ensures blocks == old(blocks) && mem.headers == old(mem.headers) && mem.regions == old(mem.regions) - {block}
      ensures SameBut(old(mem), mem, block, old(mem.regions)[block])
      ensures forall x :: x in mem.bytes ==> x in old(mem.bytes) && !(block <= x < block + old(mem.regions)[block])
    {
      var n := mem.regions[block];
      mem := mem.(bytes := map x | x in mem.bytes && !(block <= x < block + n) :: mem.bytes[x],
        regions := mem.regions - {block});
    }

    /** The arithmetic of test_malloc: where the parts of the block come to lie. */
    lemma Layout(block: nat, size: nat)
      requires Valid() && 0 < block && block + size + 2 * GUARD + header + ALIGN <= Pow2(width)
      ensures Pow2(width) > ALIGN - 1 && block + GUARD + header + ALIGN < Pow2(width)
      ensures var x := block + GUARD + header + ALIGN;
              var ptr := BitAnd(x, Not(ALIGN - 1, width));
              && ptr == x - x % ALIGN && ptr % ALIGN == 0
              && block < ptr - GUARD - header
              && ptr + size + GUARD <= block + size + 2 * GUARD + header + ALIGN
    {
      hide BitAnd, Not, Pow2, Sane, Linked;
      RoundsDown(block + GUARD + header + ALIGN, width);
    }

    /** The part of test_malloc that writes to the new block. */
    method FillBlock(block: nat, total: nat, ptr: nat, size: nat)
      requires header > 0 && Has(mem, block, total)
      requires block + header + GUARD <= ptr && ptr + size + GUARD <= block + total
      modifies this
      ensures mem.regions == old(mem.regions) && blocks == old(blocks) && mem.bytes.Keys == old(mem.bytes.Keys)
      ensures HeadersKept(old(mem), mem, header, block, total) && SameBut(old(mem), mem, block, total)
      ensures var h := ptr - GUARD - header;
              h in mem.headers && mem.headers[h] == Header(block, total, size) && Intact(mem, header, h)
      ensures Filled(mem, ptr, size, ALLOC_PATTERN)
    {
      Memset(ptr - GUARD, GUARD_PATTERN, GUARD);
      Memset(ptr + size, GUARD_PATTERN, GUARD);
      Memset(ptr, ALLOC_PATTERN, size);
      StoreHeader(ptr - (GUARD + header), Header(block, total, size));
    }

    /** The new block, as test_malloc leaves it: last in the list, aligned and guarded. */
    ghost predicate NewBlock(ptr: nat, block: nat, size: nat, before: seq<nat>)
      reads this
    {
      && ptr > GUARD + header && blocks == before + [ptr - GUARD - header]
      && Guarded(mem, header, ptr, block, size, before)
    }

    /** test_malloc, once libc has found the memory. */
    method PlaceBlock(block: nat, allocateSize: nat, size: nat) returns (ptr: nat)
      requires Valid() && Available(Some(block), allocateSize) && allocateSize == Sum(header, size)
      modifies this
      ensures Valid() && SameBut(old(mem), mem, 0, 0)
      ensures NewBlock(ptr, block, size, old(blocks)) && Filled(mem, ptr, size, ALLOC_PATTERN)
      ensures mem.regions == old(mem.regions)[block := allocateSize] && block !in old(mem.regions)
      ensures forall x :: x in old(mem.bytes) ==> !(ptr <= x < ptr + size)
      ensures SameHeaders(old(mem), mem, old(blocks))
    {
      hide HeadersKept, Intact, Filled, SameBut, Has, BitAnd, Not, Pow2, Sane, Linked;
      ghost var m0 := mem;
      LibcMalloc(block, allocateSize);
      Layout(block, size);
      var ptr' := BitAnd(block + GUARD + header + ALIGN, Not(ALIGN - 1, width));
      ptr := ptr';
      ghost var m := mem;
      FillBlock(block, allocateSize, ptr, size);
      NothingLost(m0, m, mem, block, allocateSize);
      LinkedElsewhere(m, mem, Pow2(width), header, blocks, block);
      LinkedAppend(mem, header, blocks, ptr - (GUARD + header));
      blocks := blocks + [ptr - (GUARD + header)];
    }

    /** test_malloc. */
    method TestMalloc(size: nat, answer: Option<nat>) returns (r: Result)
      requires Valid() && size < Pow2(width)
      requires Answers(answer, size)
      modifies this
      ensures Valid() && SameBut(old(mem), mem, 0, 0)
      ensures r.Pointer? <==> size + 2 * GUARD + header + ALIGN < Pow2(width) && answer.Some?
      ensures r.Fails? ==> mem == old(mem) && blocks == old(blocks)
      ensures r.Pointer? ==>
                && NewBlock(r.address, answer.value, size, old(blocks)) && Filled(mem, r.address, size, ALLOC_PATTERN)
                && mem.regions == old(mem.regions)[answer.value := Sum(header, size)]
                && answer.value !in old(mem.regions)
                && forall x :: x in old(mem.bytes) ==> !(r.address <= x < r.address + size)
      ensures SameHeaders(old(mem), mem, old(blocks))
    {
      assert SameBut(mem, mem, 0, 0);
      assert SameHeaders(mem, mem, blocks);
      hide *;
      var allocateSize := (size + GUARD * 2 + header + ALIGN) % Pow2(width);
      Sums(size);
      if !(allocateSize > size) {
        return Fails;
      }
      if answer.None? {
        return Fails;
      }
      var ptr := PlaceBlock(answer.value, allocateSize, size);
      r := Pointer(ptr);
    }

    lemma Sums(size: nat)
      requires Valid() && size < Pow2(width)
      ensures var n := size + GUARD * 2 + header + ALIGN;
              && n == Sum(header, size) && (n < Pow2(width) <==> Fits(size))
              && (n % Pow2(width) > size <==> Fits(size)) && (Fits(size) ==> n % Pow2(width) == n)
              && (forall answer :: Answers(answer, size) && Fits(size) ==> Available(answer, n % Pow2(width)))
    {
      SumTest(size, GUARD * 2 + header + ALIGN, Pow2(width));
    }

    /** The part of test_calloc behind the check of the product n. */
    method ZeroedBlock(n: nat, answer: Option<nat>) returns (r: Result)
      requires Valid() && n < Pow2(width) && Answers(answer, n)
      modifies this
      ensures Valid() && SameBut(old(mem), mem, 0, 0) && SameHeaders(old(mem), mem, old(blocks))
      ensures r.Pointer? <==> Fits(n) && answer.Some?
      ensures r.Fails? ==> mem == old(mem) && blocks == old(blocks)
      ensures r.Pointer? ==> NewBlock(r.address, answer.value, n, old(blocks)) && Filled(mem, r.address, n, 0)
    {
      hide Sane, Linked, SameBut, SameHeaders, Intact, Filled, BlocksKept, Pow2;
      ghost var m, before := mem, blocks;
      r := TestMalloc(n, answer);
      if r.Pointer? {
        ghost var m1, b1 := mem, blocks;
        HeaderThere(r.address);
        FillPayload(r.address, 0, n);
        CopyOutside(m, m1, mem, r.address, n, n);
        HeadersThrough(m, m1, mem, header, before, b1);
        assert b1[|before|] == r.address - GUARD - header;
        GuardedKept(m1, mem, header, b1, r.address, answer.value, n, before);
      }
    }

    /** test_calloc; the product of its arguments is checked before it is computed. */
    method TestCalloc(number: nat, size: nat, answer: Option<nat>) returns (r: Result)
      requires Valid() && number < Pow2(width) && size < Pow2(width)
      requires Answers(answer, number * size)
      modifies this
      ensures Valid() && SameBut(old(mem), mem, 0, 0) && SameHeaders(old(mem), mem, old(blocks))
      ensures r == Pointer(0) <==> number * size >= Pow2(width)
      ensures r.Fails? <==> number * size < Pow2(width) && !(Fits(number * size) && answer.Some?)
      ensures r.Fails? || r == Pointer(0) ==> mem == old(mem) && blocks == old(blocks)
      ensures r.Pointer? && r.address != 0 ==>
                NewBlock(r.address, answer.value, number * size, old(blocks)) &&
                  Filled(mem, r.address, number * size, 0)
    {
      assert SameBut(mem, mem, 0, 0) && SameHeaders(mem, mem, blocks);
      hide Sane, Linked, SameBut, SameHeaders, Intact, Filled, Pow2;
      if size > 0 {
        ProductTest(number, size, Pow2(width) - 1);
      }
      if size > 0 && number > (Pow2(width) - 1) / size {
        return Pointer(0);
      }
      r := ZeroedBlock(number * size, answer);
    }

    /** The block at ptr is live: its header comes right before the front guard. */
    ghost predicate Owns(ptr: nat)
      reads this
    {
      ptr >= GUARD + header && ptr - GUARD - header in blocks
    }

    /** The requested size of a live block. */
    ghost function SizeOf(ptr: nat): nat
      requires Valid() && Owns(ptr)
      reads this
    {
      LinkedMinus(mem, header, blocks, ptr - GUARD - header);
      mem.headers[ptr - GUARD - header].size
    }

    /** memset on (a part of) a payload. */
    method FillPayload(ptr: nat, v: Byte, n: nat)
      requires Valid() && Owns(ptr) && n <= SizeOf(ptr)
      modifies this
      ensures Valid() && blocks == old(blocks) && mem.regions == old(mem.regions)
      ensures SameBut(old(mem), mem, ptr, n) && Filled(mem, ptr, n, v)
      ensures BlocksKept(old(mem), mem, header, blocks)
    {
      hide Intact, SameBut, Filled;
      ghost var m := mem;
      PayloadThere(m, Pow2(width), header, blocks, ptr);
      Memset(ptr, v, n);
      PayloadWritten(m, mem, Pow2(width), header, blocks, ptr, n);
    }

    /** memcpy from the payload of one live block to that of another. */
    method CopyPayload(dst: nat, src: nat, n: nat)
      requires Valid() && Owns(dst) && Owns(src) && n <= SizeOf(dst) && n <= SizeOf(src)
      modifies this
      ensures Valid() && blocks == old(blocks) && mem.regions == old(mem.regions)
      ensures SameBut(old(mem), mem, dst, n)
      ensures Copied(old(mem), src, mem, dst, n)
      ensures BlocksKept(old(mem), mem, header, blocks)
    {
      hide Intact, SameBut, Filled;
      ghost var m := mem;
      PayloadThere(m, Pow2(width), header, blocks, src);
      PayloadThere(m, Pow2(width), header, blocks, dst);
      Memcpy(dst, src, n);
      PayloadWritten(m, mem, Pow2(width), header, blocks, dst, n);
    }

    /** A write by the program under test, anywhere but in a header. */
    method ClientWrite(a: nat, v: Byte)
      requires Valid() && a in mem.bytes
      requires forall i :: 0 <= i < |blocks| ==> Apart(blocks[i], header, a, 1)
      modifies this
      ensures Valid() && blocks == old(blocks) && mem.regions == old(mem.regions)
      ensures mem.bytes == old(mem.bytes)[a := v]
      ensures SameHeaders(old(mem), mem, blocks)
    {
      ghost var m := mem;
      Memset(a, v, 1);
      forall i | 0 <= i < |blocks| ensures Live(m, header, blocks[i]) && Live(mem, header, blocks[i]) {
      }
    }

    /** The guard check of test_free. */
    method CheckGuards(ptr: nat) returns (clean: bool)
      requires Valid() && Owns(ptr)
      ensures var h := ptr - GUARD - header; h in mem.headers && (clean <==> Intact(mem, header, h))
    {
      PayloadThere(mem, Pow2(width), header, blocks, ptr);
      var info := mem.headers[ptr - (GUARD + header)];
      var guards := [ptr - GUARD, ptr + info.size];
      for i := 0 to 2
        invariant forall k :: 0 <= k < i ==> Filled(mem, guards[k], GUARD, GUARD_PATTERN)
      {
        for j := 0 to GUARD
          invariant Filled(mem, guards[i], j, GUARD_PATTERN)
        {
          var diff := (mem.bytes[guards[i] + j] - GUARD_PATTERN) % 256;
          if diff != 0 {
            assert !Filled(mem, guards[i], GUARD, GUARD_PATTERN);
            return false;
          }
        }
      }
      assert guards[0] == ptr - GUARD && guards[1] == ptr + info.size;
      clean := true;
    }

    /** test_free: a block with a damaged guard is reported, any other is released. */
    method TestFree(ptr: nat) returns (r: Result)
      requires Valid() && (ptr != 0 ==> Owns(ptr))
      modifies this
      ensures Valid() && (r.Pointer? ==> r.address == 0)
      ensures ptr == 0 ==> r.Pointer?
      ensures ptr != 0 ==> old(ptr - GUARD - header in mem.headers)
      ensures ptr != 0 ==> (r.Fails? <==> !old(Intact(mem, header, ptr - GUARD - header)))
      ensures ptr == 0 || r.Fails? ==> mem == old(mem) && blocks == old(blocks)
      ensures ptr != 0 && r.Pointer? ==> Released(old(mem), old(blocks), mem, blocks, ptr - GUARD - header)
    {
      if ptr == 0 {
        return Pointer(0);
      }
      var clean := CheckGuards(ptr);
      if !clean {
        return Fails;
      }
      Release(ptr - (GUARD + header));
      r := Pointer(0);
    }

    /** The part of test_free that gives the block back. */
    method Release(h: nat)
      requires Valid() && h in blocks
      modifies this
      ensures Valid() && old(h in mem.headers) && Released(old(mem), old(blocks), mem, blocks, h)
    {
      hide Sane, Linked, Live, HeadersKept, Minus, Pow2, Has, Filled;
      ghost var m := mem;
      LinkedMinus(m, header, blocks, h);
      PayloadThere(m, Pow2(width), header, blocks, h + header + GUARD);
      blocks := Minus(blocks, h);
      var info := mem.headers[h];
      Memset(info.block, FREE_PATTERN, info.total);
      ClearedKept(m, mem, header, info.block, info.total);
      LinkedElsewhere(m, mem, Pow2(width), header, blocks, info.block);
      ghost var m1 := mem;
      LibcFree(info.block);
      FreedElsewhere(m1, mem, Pow2(width), header, blocks, info.block);
    }

    /** test_realloc, of a block that there is and to a size that is not 0. */
    method Move(ptr: nat, size: nat, answer: Option<nat>) returns (r: Result)
      requires Valid() && Owns(ptr) && 0 < size < Pow2(width)
      requires Answers(answer, size)
      modifies this
      ensures Valid() && old(ptr - GUARD - header in mem.headers)
      ensures var found := Fits(size) && answer.Some?;
              && (r.Pointer? <==> found && old(Intact(mem, header, ptr - GUARD - header)))
              && (!found ==> mem == old(mem) && blocks == old(blocks))
              && (found && r.Fails? ==> |blocks| == |old(blocks)| + 1 && blocks[..|old(blocks)|] == old(blocks))
              && (r.Fails? ==> SameBut(old(mem), mem, 0, 0))
      ensures SameHeaders(old(mem), mem, if r.Pointer? then Minus(old(blocks), ptr - GUARD - header) else old(blocks))
      ensures r.Pointer? ==>
                && var i := old(mem.headers[ptr - GUARD - header]);
                && SameBut(old(mem), mem, i.block, i.total)
                && NewBlock(r.address, answer.value, size, Minus(old(blocks), ptr - GUARD - header))
                && Copied(old(mem), ptr, mem, r.address, if old(SizeOf(ptr)) < size then old(SizeOf(ptr)) else size)
    {
      hide Sane, Linked, SameBut, SameHeaders, Guarded, BlocksKept, Copied, Released, Intact, Minus, Pow2, Live, Filled;
      ghost var m, before := mem, blocks;
      HeaderThere(ptr);
      r := TestMalloc(size, answer);
      if r.Fails? {
        return;
      }
      ghost var m1 := mem;
      MallocKeeps(m, m1, Pow2(width), header, before, blocks, ptr, r.address, answer.value, size);
      var info := mem.headers[ptr - (GUARD + header)];
      var blockSize := if info.size < size then info.size else size;
      var newBlock := r.address;
      HeaderThere(newBlock);
      HeaderThere(ptr);
      CopyPayload(newBlock, ptr, blockSize);
      CopyOutside(m, m1, mem, newBlock, size, blockSize);
      HeadersThrough(m, m1, mem, header, before, blocks);
      CopyKeeps(m, m1, mem, Pow2(width), header, before, blocks, ptr, newBlock, answer.value, size, blockSize);
      ghost var m2, between := mem, blocks;
      r := TestFree(ptr);
      if r.Pointer? {
        r := Pointer(newBlock);
        FreeOutside(m, m2, mem, m.headers[ptr - GUARD - header].block, m.headers[ptr - GUARD - header].total);
        FreeKeeps(m, m2, mem, Pow2(width), header, before, between, blocks, ptr, newBlock, answer.value, size,
          blockSize);
        ReleasedHeaders(m2, mem, between, blocks, ptr - GUARD - header);
        HeadersAfterFree(m, m2, mem, before, ptr - GUARD - header, newBlock - GUARD - header);
      }
    }

    /** test_realloc. */
    method TestRealloc(ptr: nat, size: nat, answer: Option<nat>) returns (r: Result)
      requires Valid() && (ptr != 0 ==> Owns(ptr)) && size < Pow2(width)
      requires ptr == 0 || size > 0 ==> Answers(answer, size)
      modifies this
      ensures Valid() && (ptr != 0 ==> old(ptr - GUARD - header in mem.headers))
      ensures var found := Fits(size) && answer.Some?;
              && (r.Pointer? <==> && (ptr == 0 || size != 0 ==> found)
                                  && (ptr != 0 ==> old(Intact(mem, header, ptr - GUARD - header))))
              && (r.Fails? && (ptr == 0 || size == 0 || !found) ==> mem == old(mem) && blocks == old(blocks))
      ensures ptr == 0 && r.Pointer? ==>
                NewBlock(r.address, answer.value, size, old(blocks)) && SameBut(old(mem), mem, 0, 0)
      ensures ptr != 0 && size == 0 && r.Pointer? ==>
                r.address == 0 && Released(old(mem), old(blocks), mem, blocks, ptr - GUARD - header)
      ensures ptr != 0 && size != 0 && r.Pointer? ==>
                && var i := old(mem.headers[ptr - GUARD - header]);
                && SameBut(old(mem), mem, i.block, i.total)
                && NewBlock(r.address, answer.value, size, Minus(old(blocks), ptr - GUARD - header))
                && Copied(old(mem), ptr, mem, r.address, if old(SizeOf(ptr)) < size then old(SizeOf(ptr)) else size)
      ensures r.Fails? ==>
                && SameBut(old(mem), mem, 0, 0)
                && |old(blocks)| <= |blocks| && blocks[..|old(blocks)|] == old(blocks)
      ensures var kept := if r.Pointer? && ptr != 0 then Minus(old(blocks), ptr - GUARD - header) else old(blocks);
              SameHeaders(old(mem), mem, kept)
    {
      assert SameBut(mem, mem, 0, 0) && blocks[..|blocks|] == blocks;
      assert SameHeaders(mem, mem, blocks);
      hide *;
      ghost var m, before := mem, blocks;
      if ptr == 0 {
        r := TestMalloc(size, answer);
      } else if size == 0 {
        r := TestFree(ptr);
        if r.Pointer? {
          ReleasedHeaders(m, mem, before, blocks, ptr - GUARD - header);
        }
      } else {
        r := Move(ptr, size, answer);
      }
    }

    /** check_point_allocated_blocks: the last block of the list, or its head. */
    method CheckPoint() returns (cp: Option<nat>)
      requires Valid()
      ensures (cp.Some? ==> cp.value in blocks) && Since(blocks, cp) == []
      ensures cp == LastOf(blocks)
    {
      BlocksDistinct(mem, header, blocks);
      NothingSince(blocks);
      cp := if blocks == [] then None else Some(blocks[|blocks| - 1]);
    }

    /** display_allocated_blocks; the checkpoint must still be in the list. */
    method DisplayAllocatedBlocks(cp: Option<nat>) returns (count: nat)
      requires Valid() && (cp.Some? ==> cp.value in blocks)
      ensures count == |Since(blocks, cp)|
    {
      count := 0;
      var node := Start(blocks, cp);
      while node < |blocks|
        invariant node == Start(blocks, cp) + count <= |blocks|
      {
        assert Live(mem, header, blocks[node]);
        var info := mem.headers[blocks[node]];  // its address is displayed
        count := count + 1;
        node := node + 1;
      }
    }

    /** One round of free_allocated_blocks. */
    method FreeAt(k: nat) returns (r: Result)
      requires Valid() && k < |blocks|
      modifies this
      ensures Valid()
      ensures r.Fails? <==> Damaged(old(mem), header, old(blocks)[k])
      ensures r.Fails? ==> blocks == old(blocks) && mem == old(mem)
      ensures r.Pointer? ==> blocks == old(blocks)[..k] + old(blocks)[k + 1..]
      ensures r.Pointer? ==> KeptBut(old(mem), mem, old(blocks), k, k + 1)
    {
      hide Sane, Linked, Intact, Released, Minus, Pow2, BlockKept;
      ghost var m, before := mem, blocks;
      r := TestFree(blocks[k] + header + GUARD);
      if r.Pointer? {
        ReleasedOthers(m, mem, Pow2(width), header, before, blocks, k);
      }
    }

    /** The blocks b[n..j] are freed, the others are as they were in m. */
    ghost predicate FreedTo(m: Arena, b: seq<nat>, n: nat, j: nat)
      reads this
    {
      && Valid() && n <= j <= |b| && blocks == b[..n] + b[j..]
      && AllIntact(m, header, b[n..j]) && KeptBut(m, mem, b, n, j)
    }

    /** One round of free_allocated_blocks, in terms of where it started. */
    method FreeNext(ghost m: Arena, ghost b: seq<nat>, ghost n: nat, ghost j: nat, node: nat) returns (r: Result)
      requires FreedTo(m, b, n, j) && Linked(m, header, b) && node == n < |blocks|
      modifies this
      ensures j < |b| && (r.Pointer? ==> FreedTo(m, b, n, j + 1))
      ensures r.Fails? ==> FreedTo(m, b, n, j) && Damaged(m, header, b[j])
    {
      hide Sane, Linked, Live, Intact, BlockKept, AllIntact, Damaged, Pow2, KeptBut;
      ghost var m1, b1 := mem, blocks;
      GuardsKept(m, m1, header, b, n, j);
      r := FreeAt(node);
      if r.Pointer? {
        OneLess(m, m1, mem, header, b, b1, n, j);
      }
    }

    /** free_allocated_blocks: the blocks after the checkpoint are freed in order, up to the first
        one with a damaged guard; the blocks before it stay as they are. */
    method FreeAllocatedBlocks(cp: Option<nat>) returns (r: Result)
      requires Valid() && (cp.Some? ==> cp.value in blocks)
      modifies this
      ensures Valid()
      ensures var b, n := old(blocks), old(Start(blocks, cp));
              && (forall i :: 0 <= i < n ==> BlockKept(old(mem), mem, b[i]))
              && (r.Pointer? ==> AllIntact(old(mem), header, b[n..]) && blocks == b[..n])
              && (r.Fails? ==> exists j :: n <= j < |b| && AllIntact(old(mem), header, b[n..j])
                                           && Damaged(old(mem), header, b[j]) && blocks == b[..n] + b[j..])
    {
      hide *;
      ghost var m, b, n := mem, blocks, Start(blocks, cp);
      var node := Start(blocks, cp);
      ghost var j := n;
      FreedStart(n);
      while node < |blocks|
        invariant FreedTo(m, b, n, j) && n <= j <= |b| && |blocks| == n + |b| - j
        decreases |b| - j
      {
        r := FreeNext(m, b, n, j, node);
        if r.Fails? {
          FreedIs(m, b, n, j);
          return;
        }
        j := j + 1;
        FreedIs(m, b, n, j);
      }
      FreedIs(m, b, n, j);
      assert b[n..j] == b[n..] && b[..n] + b[j..] == b[..n];
      r := Pointer(0);
    }

    lemma FreedStart(n: nat)
      requires Valid() && n <= |blocks|
      ensures FreedTo(mem, blocks, n, n) && Linked(mem, header, blocks)
    {
      FreeingStarts(mem, Pow2(width), header, blocks, n);
    }

    lemma FreedIs(m: Arena, b: seq<nat>, n: nat, j: nat)
      requires FreedTo(m, b, n, j)
      ensures Valid() && n <= j <= |b| && blocks == b[..n] + b[j..] && AllIntact(m, header, b[n..j])
      ensures forall i :: 0 <= i < n ==> BlockKept(m, mem, b[i])
    {
    }

    /** fail_if_blocks_allocated: jumps out of the test if anything was leaked, and frees it, up to the
        first block with a damaged guard; the blocks before the checkpoint stay as they are. */
    method FailIfBlocksAllocated(cp: Option<nat>) returns (jumps: bool)
      requires Valid() && (cp.Some? ==> cp.value in blocks)
      modifies this
      ensures Valid() && (jumps <==> old(Since(blocks, cp)) != [])
      ensures !jumps ==> blocks == old(blocks) && mem == old(mem)
      ensures var b, n := old(blocks), old(Start(blocks, cp));
              && (forall i :: 0 <= i < n ==> BlockKept(old(mem), mem, b[i]))
              && exists j :: n <= j <= |b| && AllIntact(old(mem), header, b[n..j]) && blocks == b[..n] + b[j..]
                             && (j < |b| ==> Damaged(old(mem), header, b[j]))
    {
      hide Sane, Linked, Live, Intact, BlockKept, Pow2, Start, AllIntact, Damaged;
      ghost var b, n := blocks, Start(blocks, cp);
      FreeingStarts(mem, Pow2(width), header, b, n);
      var leaked := DisplayAllocatedBlocks(cp);
      jumps := leaked > 0;
      if jumps {
        var r := FreeAllocatedBlocks(cp);
        if r.Pointer? {
          assert b[n..|b|] == b[n..] && blocks == b[..n] + b[|b|..];
        }
      }
    }

    lemma HeaderThere(ptr: nat)
      requires Valid() && Owns(ptr)
      ensures ptr - GUARD - header in mem.headers && mem.headers[ptr - GUARD - header].size == SizeOf(ptr)
      ensures ptr != 0 && ptr - GUARD - header == ptr - (GUARD + header)
    {
      PayloadThere(mem, Pow2(width), header, blocks, ptr);
    }
  }

  // ---- Heap checkpoints

  /** Where the blocks after the checkpoint start. A checkpoint is a node of the list, or its head. */
  function Start(blocks: seq<nat>, cp: Option<nat>): (k: nat)
    requires cp.Some? ==> cp.value in blocks
    ensures k <= |blocks|
    ensures cp.Some? ==> k > 0 && blocks[k - 1] == cp.value && forall i :: 0 <= i < k - 1 ==> blocks[i] != cp.value
  {
    if cp.None? then 0 else if blocks[0] == cp.value then 1 else 1 + Start(blocks[1..], cp)
  }

  /** The end of the list: its last block, or its head. */
  function LastOf(blocks: seq<nat>): Option<nat> {
    if blocks == [] then None else Some(blocks[|blocks| - 1])
  }

  function Since(blocks: seq<nat>, cp: Option<nat>): seq<nat>
    requires cp.Some? ==> cp.value in blocks
  {
    blocks[Start(blocks, cp)..]
  }

  datatype ListOp = Added(h: nat) | Removed(h: nat)

  function RunList(s: seq<nat>, ops: seq<ListOp>): seq<nat>
    decreases |ops|
  {
    if ops == [] then s else RunList(if ops[0].Added? then s + [ops[0].h] else Minus(s, ops[0].h), ops[1..])
  }

  /** Only blocks that are there are freed, and a new one has an address of its own. */
  ghost predicate Legal(s: seq<nat>, ops: seq<ListOp>)
    decreases |ops|
  {
    ops == [] ||
    if ops[0].Added? then ops[0].h !in s && Legal(s + [ops[0].h], ops[1..])
    else ops[0].h in s && Legal(Minus(s, ops[0].h), ops[1..])
  }

  lemma StartIs(s: seq<nat>, cp: Option<nat>, k: nat)
    requires Distinct(s) && k <= |s| && (if cp.None? then k == 0 else k > 0 && s[k - 1] == cp.value)
    ensures (cp.Some? ==> cp.value in s) && Start(s, cp) == k
  {
  }

  lemma MinusDistinct(s: seq<nat>, h: nat)
    requires Distinct(s) && h in s
    ensures Distinct(Minus(s, h))
  {
    var k :| 0 <= k < |s| && s[k] == h;
    MinusElements(s, k, Minus(s, h));
    hide Minus;
    RestDistinct(s, k, Minus(s, h));
  }

  lemma {:induction false} MinusConcat(s: seq<nat>, t: seq<nat>, h: nat)
    ensures Minus(s + t, h) == if h in s then Minus(s, h) + t else s + Minus(t, h)
    decreases |s|
  {
    if s == [] {
      assert s + t == t;
    } else {
      var first, rest := [s[0]], s[1..];
      assert s == first + rest;
      MinusCons(s[0], rest, h);
      MinusCons(s[0], rest + t, h);
      MinusConcat(rest, t, h);
      hide Minus;
      Regroup(first, rest, t);
      Regroup(first, Minus(rest, h), t);
      Regroup(first, rest, Minus(t, h));
    }
  }

  lemma MinusCons(x: nat, rest: seq<nat>, h: nat)
    ensures Minus([x] + rest, h) == if x == h then rest else [x] + Minus(rest, h)
  {
    assert ([x] + rest)[1..] == rest;
  }

  /** cp is the last of the blocks in s, or the head if there are none. */
  predicate EndsAt(s: seq<nat>, cp: Option<nat>) {
    if cp.None? then s == [] else s != [] && s[|s| - 1] == cp.value
  }

  lemma SinceSplit(s: seq<nat>, cp: Option<nat>) returns (before: seq<nat>)
    requires cp.Some? ==> cp.value in s
    ensures EndsAt(before, cp) && s == before + Since(s, cp)
  {
    before := s[..Start(s, cp)];
  }

  lemma SinceJoined(before: seq<nat>, after: seq<nat>, cp: Option<nat>)
    requires EndsAt(before, cp) && Distinct(before + after)
    ensures (cp.Some? ==> cp.value in before + after) && Since(before + after, cp) == after
    ensures Start(before + after, cp) == |before|
  {
    var s := before + after;
    assert cp.Some? ==> s[|before| - 1] == cp.value;
    StartIs(s, cp, |before|);
  }

  lemma EndKept(s: seq<nat>, cp: Option<nat>, h: nat)
    requires EndsAt(s, cp) && cp != Some(h) && h in s
    ensures EndsAt(Minus(s, h), cp)
  {
    var n := |s| - 1;
    assert s == s[..n] + [s[n]];
    MinusConcat(s[..n], [s[n]], h);
    var rest := Minus(s[..n], h);
    assert h in s[..n] && Minus(s, h) == rest + [s[n]];
    hide Minus;
    assert (rest + [s[n]])[|rest|] == s[n];
  }

  lemma ApartIn(before: seq<nat>, after: seq<nat>, s: seq<nat>, h: nat)
    requires s == before + after && Distinct(s) && h in before
    ensures h !in after
  {
    var i :| 0 <= i < |before| && before[i] == h;
    forall j | 0 <= j < |after| ensures after[j] != h {
      assert after[j] == s[|before| + j] && s[i] == h;
    }
  }

  lemma MinusAbsent(s: seq<nat>, h: nat)
    requires h !in s
    ensures Minus(s, h) == s
  {
  }

  /** A run on a list whose first part ends at the checkpoint. The checkpoint stays at the end of what
      is left of that part; the rest is as if the run had started with it alone. */
  lemma {:induction false} RunSplit(p: seq<nat>, q: seq<nat>, cp: Option<nat>, ops: seq<ListOp>)
    returns (p': seq<nat>)
    requires EndsAt(p, cp) && Distinct(p + q) && Legal(p + q, ops)
    requires cp.Some? ==> Removed(cp.value) !in ops
    ensures EndsAt(p', cp) && (forall h :: h in p' ==> h in p)
    ensures RunList(p + q, ops) == p' + RunList(q, ops) && Distinct(p' + RunList(q, ops))
    decreases |ops|
  {
    if ops == [] {
      return p;
    }
    var h, rest := ops[0].h, ops[1..];
    assert ops[0] in ops && forall e :: e in rest ==> e in ops;
    hide Minus, EndsAt, Distinct;
    if ops[0].Added? {
      NewLast(p + q, h);
      Regroup(p, q, [h]);
      p' := RunSplit(p, q + [h], cp, rest);
    } else {
      MinusDistinct(p + q, h);
      MinusConcat(p, q, h);
      if h in p {
        ApartIn(p, q, p + q, h);
        EndKept(p, cp, h);
        MinusAbsent(q, h);
        MinusWithin(p, h);
        p' := RunSplit(Minus(p, h), q, cp, rest);
      } else {
        p' := RunSplit(p, Minus(q, h), cp, rest);
      }
    }
  }

  lemma NewLast(s: seq<nat>, h: nat)
    requires Distinct(s) && h !in s
    ensures Distinct(s + [h])
  {
  }

  lemma {:induction false} MinusWithin(s: seq<nat>, h: nat)
    ensures forall x :: x in Minus(s, h) ==> x in s
    decreases |s|
  {
    if s != [] && s[0] != h {
      MinusWithin(s[1..], h);
    }
  }

  /** Leak accounting over any run: as long as the checkpoint's own block is not freed, the blocks
      after it are those after it before the run, with every later allocation added and every later
      free taken out. Right after the checkpoint there were none: so they are exactly the blocks
      allocated since and not yet freed. The others were there before. */
  lemma LeakAccounting(s: seq<nat>, cp: Option<nat>, ops: seq<ListOp>)
    requires Distinct(s) && Legal(s, ops) && (cp.Some? ==> cp.value in s)
    requires cp.Some? ==> Removed(cp.value) !in ops
    ensures var s' := RunList(s, ops);
            && (cp.Some? ==> cp.value in s') && Since(s', cp) == RunList(Since(s, cp), ops)
            && forall h :: h in s'[..Start(s', cp)] ==> h in s
  {
    var p := SinceSplit(s, cp);
    var q := Since(s, cp);
    hide Since, EndsAt, RunList, Legal;
    var p' := RunSplit(p, q, cp, ops);
    SinceJoined(p', RunList(q, ops), cp);
    assert (p' + RunList(q, ops))[..|p'|] == p';
  }

  /** The checkpoint taken at the end of a list has nothing after it. */
  lemma NothingSince(s: seq<nat>)
    requires Distinct(s)
    ensures (s != [] ==> LastOf(s).value in s) && Since(s, LastOf(s)) == []
  {
    if s != [] {
      StartIs(s, Some(s[|s| - 1]), |s|);
    }
  }

  /** The header and all bytes of the block at h are the same. */
  ghost predicate BlockKept(m: Arena, m': Arena, h: nat) {
    && h in m.headers && h in m'.headers && m'.headers[h] == m.headers[h]
    && SameRegion(m, m', m.headers[h].block, m.headers[h].total)
  }

  ghost predicate SameRegion(m: Arena, m': Arena, a: nat, n: nat) {
    forall x :: a <= x < a + n ==> x in m.bytes && x in m'.bytes && m'.bytes[x] == m.bytes[x]
  }

  /** Releasing block k leaves the other blocks as they are. */
  lemma ReleasedOthers(m: Arena, m': Arena, top: nat, header: nat, blocks: seq<nat>, after: seq<nat>, k: nat)
    requires Sane(m, top) && Linked(m, header, blocks) && k < |blocks| && Released(m, blocks, m', after, blocks[k])
    ensures after == blocks[..k] + blocks[k + 1..]
    ensures forall i :: 0 <= i < |blocks| && i != k ==> BlockKept(m, m', blocks[i])
  {
    hide *;
    BlocksDistinct(m, header, blocks);
    ReleasedIs(m, blocks, m', after, blocks[k]);
    MinusElements(blocks, k, after);
    forall i | 0 <= i < |blocks| && i != k ensures BlockKept(m, m', blocks[i]) {
      assert after[if i < k then i else i - 1] == blocks[i];
      ReleasedOther(m, m', top, header, blocks, after, k, i);
    }
  }

  lemma ReleasedIs(m: Arena, before: seq<nat>, m': Arena, after: seq<nat>, h: nat)
    requires Released(m, before, m', after, h)
    ensures after == Minus(before, h)
  {
  }

  lemma ReleasedOther(m: Arena, m': Arena, top: nat, header: nat, blocks: seq<nat>, after: seq<nat>, k: nat, i: nat)
    requires Sane(m, top) && Linked(m, header, blocks) && k < |blocks| && Released(m, blocks, m', after, blocks[k])
    requires i < |blocks| && i != k && blocks[i] in after
    ensures BlockKept(m, m', blocks[i])
  {
    BlocksApart(m, top, header, blocks, i, k);
    assert m.headers[blocks[i]].block in m.regions;
    var l :| 0 <= l < |after| && after[l] == blocks[i];
    hide Linked, Minus;
  }

  ghost predicate Damaged(m: Arena, header: nat, h: nat) {
    h in m.headers && !Intact(m, header, h)
  }

  ghost predicate AllIntact(m: Arena, header: nat, s: seq<nat>) {
    forall i :: 0 <= i < |s| ==> s[i] in m.headers && Intact(m, header, s[i])
  }

  /** All blocks but those at positions from to to - 1 are the same. */
  ghost predicate KeptBut(m: Arena, m': Arena, blocks: seq<nat>, from: nat, to: nat) {
    forall i :: 0 <= i < |blocks| && !(from <= i < to) ==> BlockKept(m, m', blocks[i])
  }

  // Freeing the blocks b[n..] one by one: those up to j are gone, m has become m1.

  lemma FreeingStarts(m: Arena, top: nat, header: nat, b: seq<nat>, n: nat)
    requires Sane(m, top) && Linked(m, header, b) && n <= |b|
    ensures b == b[..n] + b[n..] && AllIntact(m, header, b[n..n]) && KeptBut(m, m, b, n, n)
  {
    forall i | 0 <= i < |b| ensures BlockKept(m, m, b[i]) {
      assert Live(m, header, b[i]);
      assert m.headers[b[i]].block in m.regions;
    }
  }

  lemma GuardsKept(m: Arena, m1: Arena, header: nat, b: seq<nat>, n: nat, j: nat)
    requires Linked(m, header, b) && KeptBut(m, m1, b, n, j) && n <= j < |b|
    ensures (b[..n] + b[j..])[n] == b[j] && b[j] in m.headers && b[j] in m1.headers
    ensures Damaged(m, header, b[j]) <==> Damaged(m1, header, b[j])
  {
    assert BlockKept(m, m1, b[j]) && Live(m, header, b[j]);
    KeptGuards(m, m1, header, b[j]);
  }

  lemma OneLess(m: Arena, m1: Arena, m2: Arena, header: nat, b: seq<nat>, b1: seq<nat>, n: nat, j: nat)
    requires n <= j < |b| && b1 == b[..n] + b[j..] && AllIntact(m, header, b[n..j]) && b[j] in m.headers &&
             !Damaged(m, header, b[j])
    requires KeptBut(m, m1, b, n, j) && KeptBut(m1, m2, b1, n, n + 1)
    ensures b1[..n] + b1[n + 1..] == b[..n] + b[j + 1..]
    ensures AllIntact(m, header, b[n..j + 1]) && KeptBut(m, m2, b, n, j + 1)
  {
    hide Intact;
    forall i | 0 <= i < |b| && !(n <= i < j + 1) ensures BlockKept(m, m2, b[i]) {
      assert b1[if i < n then i else i - j + n] == b[i];
      assert BlockKept(m, m1, b[i]) && BlockKept(m1, m2, b[i]);
    }
    var done := b[n..j + 1];
    forall i | 0 <= i < |done| ensures done[i] in m.headers && Intact(m, header, done[i]) {
      assert done[i] == if i < j - n then b[n..j][i] else b[j];
    }
  }

  lemma BlocksDistinct(m: Arena, header: nat, blocks: seq<nat>)
    requires Linked(m, header, blocks)
    ensures Distinct(blocks)
  {
  }

  lemma KeptGuards(m: Arena, m': Arena, header: nat, h: nat)
    requires Live(m, header, h) && BlockKept(m, m', h)
    ensures Intact(m, header, h) <==> Intact(m', header, h)
  {
  }

  // ---- The three steps of test_realloc: m becomes m1 (malloc), m2 (memcpy), m3 (free)

  lemma MallocKeeps(m: Arena, m1: Arena, top: nat, header: nat, before: seq<nat>, blocks: seq<nat>,
                    ptr: nat, newPtr: nat, block: nat, size: nat)
    requires Sane(m, top) && Linked(m, header, before) && SameBut(m, m1, 0, 0) && SameHeaders(m, m1, before)
    requires ptr >= GUARD + header && ptr - GUARD - header in before
    requires Guarded(m1, header, newPtr, block, size, before) && blocks == before + [newPtr - GUARD - header]
    ensures newPtr >= GUARD + header && ptr - GUARD - header in blocks && newPtr - GUARD - header in blocks
    ensures var h := ptr - GUARD - header;
            && h == ptr - (GUARD + header) && h in m.headers && h in m1.headers && m1.headers[h] == m.headers[h]
            && (Intact(m, header, h) <==> Intact(m1, header, h))
    ensures var h' := newPtr - GUARD - header; h' in m1.headers && m1.headers[h'].size == size
    ensures |blocks| == |before| + 1 && blocks[..|before|] == before
  {
    PayloadThere(m, top, header, before, ptr);
    assert newPtr - GUARD - header == blocks[|before|];
    var k :| 0 <= k < |before| && before[k] == ptr - GUARD - header;
    assert blocks[k] == before[k];
  }

  lemma CopyKeeps(m: Arena, m1: Arena, m2: Arena, top: nat, header: nat, before: seq<nat>, blocks: seq<nat>,
                  ptr: nat, newPtr: nat, block: nat, size: nat, n: nat)
    requires Sane(m, top) && Linked(m, header, before) && SameBut(m, m1, 0, 0) && SameHeaders(m, m1, before)
    requires ptr >= GUARD + header && ptr - GUARD - header in before
    requires Guarded(m1, header, newPtr, block, size, before) && blocks == before + [newPtr - GUARD - header]
    requires BlocksKept(m1, m2, header, blocks) && Copied(m1, ptr, m2, newPtr, n)
    requires ptr - GUARD - header in m.headers && n <= m.headers[ptr - GUARD - header].size
    ensures var h := ptr - GUARD - header;
            h in m2.headers && m2.headers[h] == m.headers[h] && (Intact(m, header, h) <==> Intact(m2, header, h))
    ensures Guarded(m2, header, newPtr, block, size, before) && Copied(m, ptr, m2, newPtr, n)
  {
    hide Sane, Linked, Live, SameBut, Copied, Intact, SameHeaders, Has, Filled;
    MallocKeeps(m, m1, top, header, before, blocks, ptr, newPtr, block, size);
    PayloadThere(m, top, header, before, ptr);
    var k :| 0 <= k < |before| && before[k] == ptr - GUARD - header;
    assert blocks[k] == before[k] && blocks[|before|] == newPtr - GUARD - header;
    CopiedFrom(m, m1, m2, ptr, m.headers[ptr - GUARD - header].size, newPtr, n);
  }

  lemma HeadersThrough(m: Arena, m1: Arena, m2: Arena, header: nat, before: seq<nat>, blocks: seq<nat>)
    requires SameHeaders(m, m1, before) && BlocksKept(m1, m2, header, blocks)
    requires |before| <= |blocks| && blocks[..|before|] == before
    ensures SameHeaders(m, m2, before)
  {
    forall k | 0 <= k < |before|
      ensures before[k] in m.headers && before[k] in m2.headers && m2.headers[before[k]] == m.headers[before[k]]
    {
      assert blocks[k] == before[k];
    }
  }

  lemma {:induction false} MinusPart(s: seq<nat>, h: nat)
    ensures forall x :: x in Minus(s, h) ==> x in s
    decreases |s|
  {
    if s != [] { MinusPart(s[1..], h); }
  }

  lemma HeadersAfterFree(m: Arena, m2: Arena, m3: Arena, before: seq<nat>, h: nat, x: nat)
    requires SameHeaders(m, m2, before) && h in before && SameHeaders(m2, m3, Minus(before, h) + [x])
    ensures SameHeaders(m, m3, Minus(before, h))
  {
    MinusPart(before, h);
    var rest := Minus(before, h);
    forall k | 0 <= k < |rest|
      ensures rest[k] in m.headers && rest[k] in m3.headers && m3.headers[rest[k]] == m.headers[rest[k]]
    {
      assert (rest + [x])[k] == rest[k] && rest[k] in before;
    }
  }

  lemma ReleasedHeaders(m: Arena, m': Arena, before: seq<nat>, after: seq<nat>, h: nat)
    requires Released(m, before, m', after, h)
    ensures SameHeaders(m, m', after) && after == Minus(before, h)
  {
  }

  lemma GuardedKept(m: Arena, m': Arena, header: nat, blocks: seq<nat>, ptr: nat, block: nat, size: nat,
                    before: seq<nat>)
    requires BlocksKept(m, m', header, blocks) && Guarded(m, header, ptr, block, size, before)
    requires ptr - GUARD - header in blocks
    ensures Guarded(m', header, ptr, block, size, before)
  {
    hide Intact;
  }

  lemma CopyOutside(m: Arena, m1: Arena, m2: Arena, dst: nat, size: nat, n: nat)
    requires SameBut(m, m1, 0, 0) && SameBut(m1, m2, dst, n) && n <= size
    requires forall x :: x in m.bytes ==> !(dst <= x < dst + size)
    ensures SameBut(m, m2, 0, 0)
  {
  }

  lemma FreeOutside(m: Arena, m2: Arena, m3: Arena, a: nat, n: nat)
    requires SameBut(m, m2, 0, 0) && SameBut(m2, m3, a, n)
    ensures SameBut(m, m3, a, n)
  {
  }

  lemma CopiedFrom(m: Arena, m1: Arena, m2: Arena, src: nat, size: nat, dst: nat, n: nat)
    requires Has(m, src, size) && n <= size && SameBut(m, m1, 0, 0) && Copied(m1, src, m2, dst, n)
    ensures Copied(m, src, m2, dst, n)
  {
  }

  lemma {:induction false} MinusAppend(s: seq<nat>, h: nat, x: nat)
    requires h in s
    ensures Minus(s + [x], h) == Minus(s, h) + [x]
    decreases |s|
  {
    if s[0] != h {
      MinusAppend(s[1..], h, x);
      assert (s + [x])[1..] == s[1..] + [x];
    }
  }

  lemma FreeKeeps(m: Arena, m2: Arena, m3: Arena, top: nat, header: nat, before: seq<nat>, between: seq<nat>,
                  after: seq<nat>, ptr: nat, newPtr: nat, block: nat, size: nat, n: nat)
    requires header > 0 && Sane(m2, top) && Linked(m2, header, between)
    requires ptr >= GUARD + header && ptr - GUARD - header in before
    requires Guarded(m2, header, newPtr, block, size, before) && between == before + [newPtr - GUARD - header]
    requires Copied(m, ptr, m2, newPtr, n) && n <= size
    requires Released(m2, between, m3, after, ptr - GUARD - header)
    ensures after == Minus(before, ptr - GUARD - header) + [newPtr - GUARD - header]
    ensures Guarded(m3, header, newPtr, block, size, Minus(before, ptr - GUARD - header))
    ensures Copied(m, ptr, m3, newPtr, n)
  {
    hide Sane, Linked, Released, Copied, Minus, BlockKept, Intact, Live;
    var h, h' := ptr - GUARD - header, newPtr - GUARD - header;
    ReleasedHeaders(m2, m3, between, after, h);
    MinusAppend(before, h, h');
    MinusOnly(before, h, h');
    var k :| 0 <= k < |before| && before[k] == h;
    assert between[k] == h && between[|before|] == h';
    BlocksDistinct(m2, header, between);
    ReleasedOthers(m2, m3, top, header, between, after, k);
    LinkedLive(m2, header, between, |before|);
    KeptGuards(m2, m3, header, h');
    CopyKept(m, ptr, m2, m3, header, newPtr, n);
    assert BlockKept(m2, m3, h');
    KeptHeader(m2, m3, h');
  }

  lemma LinkedLive(m: Arena, header: nat, blocks: seq<nat>, i: nat)
    requires Linked(m, header, blocks) && i < |blocks|
    ensures Live(m, header, blocks[i])
  {
  }

  lemma KeptHeader(m: Arena, m': Arena, h: nat)
    requires BlockKept(m, m', h)
    ensures h in m.headers && h in m'.headers && m'.headers[h] == m.headers[h]
  {
  }

  /** What was copied into a block that is kept is still there. */
  lemma CopyKept(m: Arena, ptr: nat, m2: Arena, m3: Arena, header: nat, newPtr: nat, n: nat)
    requires newPtr >= GUARD + header && Copied(m, ptr, m2, newPtr, n)
    requires Live(m2, header, newPtr - GUARD - header) && BlockKept(m2, m3, newPtr - GUARD - header)
    requires n <= m2.headers[newPtr - GUARD - header].size
    ensures Copied(m, ptr, m3, newPtr, n)
  {
  }

  lemma {:induction false} MinusOnly(s: seq<nat>, h: nat, x: nat)
    requires x !in s
    ensures x !in Minus(s, h)
    decreases |s|
  {
    if s != [] { MinusOnly(s[1..], h, x); }
  }
}
