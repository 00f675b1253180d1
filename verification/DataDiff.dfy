// print_data_diff: the rows that show where two blocks of memory differ.
module DataDiff {
  import opened Words

  const WIDTH := 16

  /** A line of the dump: a row that is the same in both blocks, the two rows that are not, or the
      notice that rows of zeros are left out. */
  datatype Row =
    | Same(index: nat, bytes: seq<Byte>)
    | First(index: nat, bytes: seq<Byte>)
    | Second(index: nat, bytes: seq<Byte>)
    | Skipping

  /** The row of a block that starts at i: up to 16 bytes, none if the block has ended. */
  function RowAt(b: seq<Byte>, i: nat): (r: seq<Byte>)
    ensures |r| <= WIDTH
  {
    if i >= |b| then [] else if |b| - i < WIDTH then b[i..] else b[i..i + WIDTH]
  }

  predicate Zero(s: seq<Byte>) {
    forall j :: 0 <= j < |s| ==> s[j] == 0
  }

  function Longer(b1: seq<Byte>, b2: seq<Byte>): nat {
    if |b1| > |b2| then |b1| else |b2|
  }

  /** A row that is left out: not the first, not the last, and full and zero in both blocks. */
  predicate LeftOut(b1: seq<Byte>, b2: seq<Byte>, omit: bool, i: nat) {
    && omit && i > 0 && i + WIDTH < Longer(b1, b2)
    && |RowAt(b1, i)| == WIDTH && |RowAt(b2, i)| == WIDTH
    && Zero(RowAt(b1, i)) && Zero(RowAt(b2, i))
  }

  /** The lines of one row that is not left out. */
  function Lines(b1: seq<Byte>, b2: seq<Byte>, i: nat): seq<Row> {
    if RowAt(b1, i) == RowAt(b2, i) then [Same(i, RowAt(b1, i))] else [First(i, RowAt(b1, i)), Second(i, RowAt(b2, i))]
  }

  /** The lines for the rows from i on. */
  function Rows(b1: seq<Byte>, b2: seq<Byte>, omit: bool, i: nat, skipped: bool): seq<Row>
    decreases Longer(b1, b2) - i
  {
    if i >= Longer(b1, b2) then []
    else if LeftOut(b1, b2, omit, i) then (if skipped then [] else [Skipping]) + Rows(b1, b2, omit, i + WIDTH, true)
    else Lines(b1, b2, i) + Rows(b1, b2, omit, i + WIDTH, false)
  }

  // ---- Reading the dump

  function Zeros(n: int): (r: seq<Byte>) {
    if n <= 0 then [] else seq(n, _ => 0)
  }

  /** What has been read of the two blocks, and the index of the row that comes next. */
  datatype Read = Read(b1: seq<Byte>, b2: seq<Byte>, next: nat)

  /** Rows that are missing are zero in both blocks. */
  function ReadRow(s: Read, row: Row): Read {
    match row
    case Same(i, bytes) => Read(s.b1 + Zeros(i - s.next) + bytes, s.b2 + Zeros(i - s.next) + bytes, i + WIDTH)
    case First(i, bytes) => Read(s.b1 + Zeros(i - s.next) + bytes, s.b2 + Zeros(i - s.next), i + WIDTH)
    case Second(i, bytes) => s.(b2 := s.b2 + bytes)
    case Skipping => s
  }

  function ReadRows(s: Read, rows: seq<Row>): Read
    decreases |rows|
  {
    if rows == [] then s else ReadRows(ReadRow(s, rows[0]), rows[1..])
  }

  function Decode(rows: seq<Row>): (seq<Byte>, seq<Byte>) {
    var s := ReadRows(Read([], [], 0), rows);
    (s.b1, s.b2)
  }

  /** A block up to the row at i. */
  function Upto(b: seq<Byte>, i: nat): seq<Byte> {
    if i >= |b| then b else b[..i]
  }

  lemma UptoNext(b: seq<Byte>, i: nat)
    ensures Upto(b, i + WIDTH) == Upto(b, i) + RowAt(b, i)
  {
  }

  lemma RowsNext(b1: seq<Byte>, b2: seq<Byte>, omit: bool, i: nat, skipped: bool)
    requires i < Longer(b1, b2)
    ensures Rows(b1, b2, omit, i, skipped) ==
            if LeftOut(b1, b2, omit, i) then (if skipped then [] else [Skipping]) + Rows(b1, b2, omit, i + WIDTH, true)
            else Lines(b1, b2, i) + Rows(b1, b2, omit, i + WIDTH, false)
  {
  }

  lemma {:induction false} ReadConcat(s: Read, rows: seq<Row>, more: seq<Row>)
    ensures ReadRows(s, rows + more) == ReadRows(ReadRows(s, rows), more)
    decreases |rows|
  {
    if rows == [] {
      assert rows + more == more;
    } else {
      ReadConcat(ReadRow(s, rows[0]), rows[1..], more);
      assert (rows + more)[1..] == rows[1..] + more;
    }
  }

  /** Reading the lines of a row appends the row to each block, after the zeros that were left out. */
  lemma ReadLines(b1: seq<Byte>, b2: seq<Byte>, i: nat, next: nat)
    requires next <= i && Gap(b1, next, i) && Gap(b2, next, i)
    ensures ReadRows(Read(Upto(b1, next), Upto(b2, next), next), Lines(b1, b2, i)) ==
            Read(Upto(b1, i + WIDTH), Upto(b2, i + WIDTH), i + WIDTH)
  {
    UptoNext(b1, i);
    UptoNext(b2, i);
    hide Upto, RowAt, Zeros;
    var s, lines := Read(Upto(b1, next), Upto(b2, next), next), Lines(b1, b2, i);
    if RowAt(b1, i) == RowAt(b2, i) {
      assert lines[1..] == [];
    } else {
      var s1 := ReadRow(s, lines[0]);
      assert lines[1..] == [Second(i, RowAt(b2, i))] && lines[1..][1..] == [];
      assert ReadRows(s, lines) == ReadRows(s1, lines[1..]) == ReadRows(ReadRow(s1, lines[1]), []);
    }
  }

  /** From index next to index i, there is nothing but zeros. */
  ghost predicate Gap(b: seq<Byte>, next: nat, i: nat) {
    Upto(b, i) == Upto(b, next) + Zeros(i - next)
  }

  lemma NoGap(b: seq<Byte>, i: nat)
    ensures Gap(b, i, i) && Upto(b, 0) == [] && (i >= |b| ==> Upto(b, i) == b)
  {
  }

  lemma ReadSkipping(s: Read, rest: seq<Row>)
    ensures ReadRows(s, [] + rest) == ReadRows(s, [Skipping] + rest) == ReadRows(s, rest) && ReadRows(s, []) == s
  {
    assert [] + rest == rest && ([Skipping] + rest)[1..] == rest;
  }

  /** After some rows were left out: the reader still has what came before them. */
  lemma {:induction false} ReadFrom(b1: seq<Byte>, b2: seq<Byte>, omit: bool, i: nat, skipped: bool, next: nat)
    requires next <= i && (next < i ==> i < Longer(b1, b2)) && Gap(b1, next, i) && Gap(b2, next, i)
    ensures var s := ReadRows(Read(Upto(b1, next), Upto(b2, next), next), Rows(b1, b2, omit, i, skipped));
            s.b1 == b1 && s.b2 == b2
    decreases Longer(b1, b2) - i
  {
    hide Upto, RowAt, Zeros, Zero, ReadRows, Gap, Lines;
    var s := Read(Upto(b1, next), Upto(b2, next), next);
    ReadSkipping(s, Rows(b1, b2, omit, i + WIDTH, true));
    if i >= Longer(b1, b2) {
      NoGap(b1, i);
      NoGap(b2, i);
    } else if LeftOut(b1, b2, omit, i) {
      ZeroRow(b1, next, i);
      ZeroRow(b2, next, i);
      ReadFrom(b1, b2, omit, i + WIDTH, true, next);
    } else {
      NoGap(b1, i + WIDTH);
      NoGap(b2, i + WIDTH);
      ReadFrom(b1, b2, omit, i + WIDTH, false, i + WIDTH);
      ReadLines(b1, b2, i, next);
      ReadConcat(s, Lines(b1, b2, i), Rows(b1, b2, omit, i + WIDTH, false));
    }
  }

  lemma ZeroRow(b: seq<Byte>, next: nat, i: nat)
    requires next <= i && |RowAt(b, i)| == WIDTH && Zero(RowAt(b, i))
    requires Gap(b, next, i)
    ensures Gap(b, next, i + WIDTH)
  {
    UptoNext(b, i);
    assert RowAt(b, i) == Zeros(WIDTH);
    assert Zeros(i + WIDTH - next) == Zeros(i - next) + Zeros(WIDTH);
  }

  /** The dump loses nothing: both blocks, with their lengths, can be read back from it. */
  lemma Lossless(b1: seq<Byte>, b2: seq<Byte>, omit: bool)
    ensures Decode(Rows(b1, b2, omit, 0, false)) == (b1, b2)
  {
    assert Upto(b1, 0) == Upto(b1, 0) + Zeros(0) && Upto(b2, 0) == Upto(b2, 0) + Zeros(0);
    ReadFrom(b1, b2, omit, 0, false, 0);
    assert Upto(b1, 0) == [] && Upto(b2, 0) == [];
  }

  /** So two dumps are the same only if the blocks were. */
  lemma Injective(b1: seq<Byte>, b2: seq<Byte>, c1: seq<Byte>, c2: seq<Byte>, omit: bool)
    requires Rows(b1, b2, omit, 0, false) == Rows(c1, c2, omit, 0, false)
    ensures b1 == c1 && b2 == c2
  {
    Lossless(b1, b2, omit);
    Lossless(c1, c2, omit);
  }

  // ---- What is shown

  /** The 16 bytes at j are there in both blocks and zero, and j is neither the first nor the last row. */
  ghost predicate Dull(b1: seq<Byte>, b2: seq<Byte>, j: nat) {
    && 0 < j && j + 16 <= |b1| && j + 16 <= |b2| && (j + 16 < |b1| || j + 16 < |b2|)
    && forall x :: j <= x < j + 16 ==> b1[x] == 0 && b2[x] == 0
  }

  /** The bytes from j on that one line has room for. */
  ghost predicate BytesAt(b: seq<Byte>, j: nat, bytes: seq<Byte>) {
    && |bytes| == (if j + 16 <= |b| then 16 else if j <= |b| then |b| - j else 0)
    && forall x :: 0 <= x < |bytes| ==> bytes[x] == b[j + x]
  }

  /** A line that a dump of the blocks has to have: one for a row that is the same in both, two for a row
      that is not. */
  ghost predicate Due(b1: seq<Byte>, b2: seq<Byte>, omit: bool, row: Row) {
    match row
    case Same(j, bytes) => Shown(b1, b2, omit, j) && BytesAt(b1, j, bytes) && BytesAt(b2, j, bytes)
    case First(j, bytes) => Shown(b1, b2, omit, j) && BytesAt(b1, j, bytes) && !BytesAt(b2, j, bytes)
    case Second(j, bytes) => Shown(b1, b2, omit, j) && BytesAt(b2, j, bytes) && !BytesAt(b1, j, bytes)
    case Skipping => omit && exists j: nat {:trigger Dull(b1, b2, j)} :: j % 16 == 0 && Dull(b1, b2, j)
  }

  ghost predicate Shown(b1: seq<Byte>, b2: seq<Byte>, omit: bool, j: nat) {
    j % 16 == 0 && (j < |b1| || j < |b2|) && !(omit && Dull(b1, b2, j))
  }

  lemma RowIs(b: seq<Byte>, j: nat, bytes: seq<Byte>)
    ensures BytesAt(b, j, bytes) <==> bytes == RowAt(b, j)
  {
  }

  lemma LeftOutIs(b1: seq<Byte>, b2: seq<Byte>, omit: bool, j: nat)
    ensures LeftOut(b1, b2, omit, j) <==> omit && Dull(b1, b2, j)
  {
    if |RowAt(b1, j)| == WIDTH && |RowAt(b2, j)| == WIDTH {
      assert forall x :: 0 <= x < WIDTH ==> RowAt(b1, j)[x] == b1[j + x] && RowAt(b2, j)[x] == b2[j + x];
      assert Zero(RowAt(b1, j)) && Zero(RowAt(b2, j)) ==>
          forall x :: j <= x < j + 16 ==> b1[x] == RowAt(b1, j)[x - j] && b2[x] == RowAt(b2, j)[x - j];
    }
  }

  lemma LinesAt(b1: seq<Byte>, b2: seq<Byte>, omit: bool, i: nat, row: Row)
    requires Shown(b1, b2, omit, i)
    ensures row in Lines(b1, b2, i) <==> !row.Skipping? && row.index == i && Due(b1, b2, omit, row)
  {
    hide RowAt, BytesAt, Dull;
    if !row.Skipping? {
      RowIs(b1, row.index, row.bytes);
      RowIs(b2, row.index, row.bytes);
    }
  }

  lemma DueIs(b1: seq<Byte>, b2: seq<Byte>, omit: bool, row: Row)
    requires !row.Skipping? && Due(b1, b2, omit, row)
    ensures row.index % 16 == 0 && row.index < Longer(b1, b2) && Shown(b1, b2, omit, row.index)
  {
  }

  lemma ShownIs(b1: seq<Byte>, b2: seq<Byte>, omit: bool, i: nat)
    requires i % 16 == 0 && i < Longer(b1, b2)
    ensures Shown(b1, b2, omit, i) <==> !LeftOut(b1, b2, omit, i)
  {
    LeftOutIs(b1, b2, omit, i);
  }

  lemma {:induction false} ShownFrom(b1: seq<Byte>, b2: seq<Byte>, omit: bool, i: nat, skipped: bool, row: Row)
    requires i % 16 == 0 && !row.Skipping?
    ensures row in Rows(b1, b2, omit, i, skipped) <==> row.index >= i && Due(b1, b2, omit, row)
    decreases Longer(b1, b2) - i
  {
    hide Rows, RowAt, BytesAt, Dull, LeftOut, Lines, Zero, Due, Shown, Longer;
    if Due(b1, b2, omit, row) {
      DueIs(b1, b2, omit, row);
    }
    if i >= Longer(b1, b2) {
      RowsEnd(b1, b2, omit, i, skipped);
    } else {
      RowsNext(b1, b2, omit, i, skipped);
      ShownIs(b1, b2, omit, i);
      if LeftOut(b1, b2, omit, i) {
        ShownFrom(b1, b2, omit, i + WIDTH, true, row);
      } else {
        ShownFrom(b1, b2, omit, i + WIDTH, false, row);
        LinesAt(b1, b2, omit, i, row);
      }
    }
  }

  /** A notice is shown for the rows that are left out, and not twice in a row. */
  lemma {:induction false} NoticesFrom(b1: seq<Byte>, b2: seq<Byte>, omit: bool, i: nat, skipped: bool)
    requires i % 16 == 0
    ensures var rows := Rows(b1, b2, omit, i, skipped);
            && (rows != [] && skipped ==> !rows[0].Skipping?) && (i < Longer(b1, b2) ==> rows != [])
            && (forall k :: 0 <= k < |rows| && rows[k].Skipping? ==> k + 1 < |rows| && !rows[k + 1].Skipping?)
            && (Skipping in rows ==> omit && exists j: nat {:trigger Dull(b1, b2, j)} :: j % 16 == 0 && Dull(b1, b2, j))
            && (forall j: nat {:trigger Dull(b1, b2, j)} :: omit && !skipped && i <= j && j % 16 == 0 && Dull(b1, b2, j)
                  ==> Skipping in rows)
    decreases Longer(b1, b2) - i
  {
    hide RowAt, Dull, LeftOut, Zero;
    if i < Longer(b1, b2) {
      RowsNext(b1, b2, omit, i, skipped);
      LeftOutIs(b1, b2, omit, i);
      LeftOutEnds(b1, b2, omit, i);
      NoticesFrom(b1, b2, omit, i + WIDTH, LeftOut(b1, b2, omit, i));
    }
    AllDullBefore(b1, b2);
  }

  lemma LeftOutEnds(b1: seq<Byte>, b2: seq<Byte>, omit: bool, i: nat)
    ensures LeftOut(b1, b2, omit, i) ==> i + WIDTH < Longer(b1, b2)
  {
  }

  lemma AllDullBefore(b1: seq<Byte>, b2: seq<Byte>)
    ensures forall j: nat {:trigger Dull(b1, b2, j)} :: Dull(b1, b2, j) ==> j < Longer(b1, b2)
  {
  }

  /** The dump has exactly the lines that are due. */
  lemma ShownExactly(b1: seq<Byte>, b2: seq<Byte>, omit: bool, row: Row)
    ensures row in Rows(b1, b2, omit, 0, false) <==> Due(b1, b2, omit, row)
  {
    hide Rows, Dull, BytesAt;
    if row.Skipping? {
      NoticesFrom(b1, b2, omit, 0, false);
    } else {
      ShownFrom(b1, b2, omit, 0, false, row);
    }
  }

  /** Two blocks that differ do so at some index, or where the shorter one ends. */
  lemma FirstDifference(b1: seq<Byte>, b2: seq<Byte>) returns (j: nat)
    requires b1 != b2
    ensures j < Longer(b1, b2) && (j >= |b1| || j >= |b2| || b1[j] != b2[j])
  {
    if |b1| == |b2| {
      j :| 0 <= j < |b1| && b1[j] != b2[j];
    } else {
      j := if |b1| < |b2| then |b1| else |b2|;
    }
  }

  lemma DifferentRow(b1: seq<Byte>, b2: seq<Byte>, omit: bool, j: nat)
    requires j < Longer(b1, b2) && (j >= |b1| || j >= |b2| || b1[j] != b2[j])
    ensures Due(b1, b2, omit, First(j - j % 16, RowAt(b1, j - j % 16)))
  {
    hide RowAt, BytesAt, Dull;
    var i := j - j % 16;
    ByteIn(b1, i, j % 16);
    ByteIn(b2, i, j % 16);
    RowIs(b1, i, RowAt(b1, i));
    RowIs(b2, i, RowAt(b1, i));
    NotDull(b1, b2, i, j);
  }

  lemma ByteIn(b: seq<Byte>, i: nat, k: nat)
    requires k < 16
    ensures k < |RowAt(b, i)| <==> i + k < |b|
    ensures i + k < |b| ==> RowAt(b, i)[k] == b[i + k]
  {
  }

  lemma NotDull(b1: seq<Byte>, b2: seq<Byte>, i: nat, j: nat)
    requires i <= j < i + 16 && (j >= |b1| || j >= |b2| || b1[j] != b2[j])
    ensures !Dull(b1, b2, i)
  {
  }

  /** It shows a difference if and only if there is one. */
  lemma DifferenceShown(b1: seq<Byte>, b2: seq<Byte>, omit: bool)
    ensures b1 == b2 <==> forall row :: row in Rows(b1, b2, omit, 0, false) ==> !row.First? && !row.Second?
  {
    forall row | row in Rows(b1, b2, omit, 0, false) && (row.First? || row.Second?) ensures b1 != b2 {
      ShownExactly(b1, b2, omit, row);
    }
    if b1 != b2 {
      var j := FirstDifference(b1, b2);
      var row := First(j - j % 16, RowAt(b1, j - j % 16));
      DifferentRow(b1, b2, omit, j);
      ShownExactly(b1, b2, omit, row);
    }
  }

  // ---- The code

  /** memcmp of n bytes at i in b and at j in c: are they equal? */
  method Memcmp(b: seq<Byte>, i: nat, c: seq<Byte>, j: nat, n: nat) returns (equal: bool)
    requires i + n <= |b| && j + n <= |c|
    ensures equal <==> b[i..i + n] == c[j..j + n]
  {
    ghost var s, t := b[i..i + n], c[j..j + n];
    var k := 0;
    while k < n
      invariant 0 <= k <= n && forall l :: 0 <= l < k ==> s[l] == t[l]
    {
      assert s[k] == b[i + k] && t[k] == c[j + k];
      if b[i + k] != c[j + k] {
        return false;
      }
      k := k + 1;
    }
    equal := true;
  }

  /** Bytes that equal their successors are all equal to the first. */
  lemma {:induction false} ShiftedEqual(s: seq<Byte>, k: nat)
    requires k < |s| && s[..|s| - 1] == s[1..]
    ensures s[k] == s[0]
    decreases k
  {
    if k > 0 {
      ShiftedEqual(s, k - 1);
      assert s[..|s| - 1][k - 1] == s[1..][k - 1];
    }
  }

  /** all_zero: the first byte is zero, and comparing the bytes with themselves one further on says
      that they are equal. */
  method AllZero(b: seq<Byte>, i: nat, n: nat) returns (zero: bool)
    requires i + n <= |b|
    ensures zero <==> Zero(b[i..i + n])
  {
    if n == 0 {
      return true;
    }
    if b[i] != 0 {
      assert b[i..i + n][0] != 0;
      return false;
    }
    zero := Memcmp(b, i, b, i + 1, n - 1);
    ghost var s := b[i..i + n];
    assert s[..n - 1] == b[i..i + (n - 1)] && s[1..] == b[i + 1..i + 1 + (n - 1)];
    assert Zero(s) ==> s[..n - 1] == s[1..];
    if zero {
      forall k | 0 <= k < n ensures s[k] == 0 { ShiftedEqual(s, k); }
    }
  }

  lemma RowsEnd(b1: seq<Byte>, b2: seq<Byte>, omit: bool, i: nat, skipped: bool)
    requires i >= Longer(b1, b2)
    ensures Rows(b1, b2, omit, i, skipped) == []
  {
  }

  lemma Emit(output: seq<Row>, lines: seq<Row>, rest: seq<Row>, rows: seq<Row>, all: seq<Row>)
    requires output + rows == all && rows == lines + rest
    ensures (output + lines) + rest == all
  {
    assert (output + lines) + rest == output + (lines + rest);
  }

  /** Whether the row at i is left out. */
  method IsLeftOut(b1: seq<Byte>, b2: seq<Byte>, omit: bool, i: nat, len1: nat, len2: nat) returns (r: bool)
    requires i < Longer(b1, b2) && len1 == |RowAt(b1, i)| && len2 == |RowAt(b2, i)|
    ensures r <==> LeftOut(b1, b2, omit, i)
  {
    var len := Longer(b1, b2);
    var remaining := len - i;
    if omit && i > 0 && remaining > WIDTH && len1 == WIDTH && len2 == WIDTH {
      r := AllZero(b1, i, WIDTH);
      if r {
        r := AllZero(b2, i, WIDTH);
      }
    } else {
      r := false;
    }
  }

  function RowLength(b: seq<Byte>, i: nat): (n: nat)
    ensures n == |RowAt(b, i)|
  {
    if i < |b| then (if |b| - i < WIDTH then |b| - i else WIDTH) else 0
  }

  /** One row that is the same in both blocks, or two that are not. */
  method RowLines(b1: seq<Byte>, b2: seq<Byte>, i: nat, len1: nat, len2: nat) returns (lines: seq<Row>)
    requires i < Longer(b1, b2) && len1 == |RowAt(b1, i)| && len2 == |RowAt(b2, i)|
    ensures lines == Lines(b1, b2, i)
  {
    var row1, row2 := RowAt(b1, i), RowAt(b2, i);
    if len1 == len2 {
      var equal := Memcmp(b1, i, b2, i, len1);
      assert row1 == b1[i..i + len1] && row2 == b2[i..i + len2];
      if equal {
        return [Same(i, row1)];
      }
    }
    lines := [First(i, row1), Second(i, row2)];
  }

  /** print_data_diff. */
  method PrintDataDiff(b1: seq<Byte>, b2: seq<Byte>, omit: bool) returns (output: seq<Row>)
    ensures output == Rows(b1, b2, omit, 0, false)
    ensures Decode(output) == (b1, b2)
  {
    hide Rows, Decode, RowAt, RowLength, Zero, LeftOut, Lines, Longer;
    var len := Longer(b1, b2);
    var skipped := false;
    output := [];
    ghost var all := Rows(b1, b2, omit, 0, false);
    assert output + all == all;
    var i := 0;
    while i < len
      invariant 0 <= i
      invariant output + Rows(b1, b2, omit, i, skipped) == all
      decreases len - i
    {
      RowsNext(b1, b2, omit, i, skipped);
      ghost var rows := Rows(b1, b2, omit, i, skipped);
      var len1 := RowLength(b1, i);
      var len2 := RowLength(b2, i);
      var leftOut := IsLeftOut(b1, b2, omit, i, len1, len2);
      var lines := [];
      if leftOut {
        if !skipped {
          lines := [Skipping];
        }
      } else {
        lines := RowLines(b1, b2, i, len1, len2);
      }
      Emit(output, lines, Rows(b1, b2, omit, i + WIDTH, leftOut), rows, all);
      output := output + lines;
      skipped := leftOut;
      i := i + WIDTH;
    }
    RowsEnd(b1, b2, omit, i, skipped);
    assert output + [] == output;
    Lossless(b1, b2, omit);
  }
}
