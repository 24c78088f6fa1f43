/** The GVPO batch scheduler: whole prompt groups go to micro-batch slots, the
    rows of a slot go to the ranks, and row (rank, slot, position) lands at
    `rank * (batch / ranks) + slot * microBatch + position`. */
module GvpoSchedule {
  import opened Sequences
  import opened BalancedPartition
  import opened RowMaps

  datatype Balance =
    | Reordered(idx: seq<int>)
    | GroupAssertion      // ranks * rows per rank is no multiple of the group size
    | PartitionFailed     // the balancer refused
    | NonIntegerSlice     // a float slice bound
    | RowOutOfRange

  datatype Placement = Placed | NotPlaced(why: Balance)

  /** The rows of the prompt groups in `part`, `n` consecutive rows each. */
  function GroupRows(part: seq<nat>, n: nat): (r: seq<nat>)
    ensures |r| == |part| * n
  {
    if part == [] then [] else
      assert (|part| - 1) * n + n == |part| * n;
      seq(n, j requires 0 <= j => part[0] * n + j) + GroupRows(part[1..], n)
  }

  /** What the ranks together hold at micro-batch slot `k`, rank by rank. */
  function SlotRows<T>(idx: seq<T>, ranks: nat, chunk: nat, perRank: nat, k: nat): (r: seq<T>)
    requires k * perRank + perRank <= chunk && ranks * chunk <= |idx|
  {
    Flatten(SlotBlocks(idx, ranks, chunk, perRank, k))
  }

  function SlotBlocks<T>(idx: seq<T>, ranks: nat, chunk: nat, perRank: nat, k: nat): (r: seq<seq<T>>)
    requires k * perRank + perRank <= chunk && ranks * chunk <= |idx|
    ensures |r| == ranks
  {
    seq(ranks, i requires 0 <= i < ranks => MicroBatch(idx, ranks, chunk, perRank, k, i))
  }

  /** Slot `k` of rank `i`. */
  function MicroBatch<T>(idx: seq<T>, ranks: nat, chunk: nat, perRank: nat, k: nat, i: nat): (r: seq<T>)
    requires k * perRank + perRank <= chunk && ranks * chunk <= |idx| && i < ranks
    ensures |r| == perRank
  {
    Window(idx, ranks, chunk, k * perRank, perRank, i)
  }

  /** `size` entries at offset `base` of chunk `i`. */
  function Window<T>(s: seq<T>, ranks: nat, chunk: nat, base: nat, size: nat, i: nat): (r: seq<T>)
    requires base + size <= chunk && ranks * chunk <= |s| && i < ranks
    ensures |r| == size
  {
    BlockBounds(i, ranks, chunk);
    s[i * chunk + base..i * chunk + base + size]
  }

  // ----- writing one slot -----

  function Splice<T>(s: seq<T>, at: nat, vals: seq<T>): (r: seq<T>)
    requires at + |vals| <= |s|
    ensures |r| == |s|
  {
    s[..at] + vals + s[at + |vals|..]
  }

  /** `blocks[i]` written at offset `base` of the `i`-th chunk, for every `i`. */
  ghost function SpliceRanks(s: seq<int>, chunk: nat, base: nat, blocks: seq<seq<int>>): (r: seq<int>)
    requires |blocks| * chunk <= |s|
    requires forall i :: 0 <= i < |blocks| ==> base + |blocks[i]| <= chunk
    ensures |r| == |s|
    decreases |blocks|
  {
    if blocks == [] then s
    else
      var m := |blocks| - 1;
      assert m * chunk + chunk == |blocks| * chunk;
      Splice(SpliceRanks(s, chunk, base, blocks[..m]), m * chunk + base, blocks[m])
  }

  lemma {:induction false} SpliceRanksAt(s: seq<int>, chunk: nat, base: nat, size: nat, blocks: seq<seq<int>>, i: nat)
    requires |blocks| * chunk <= |s| && base + size <= chunk && i < |blocks|
    requires forall j :: 0 <= j < |blocks| ==> |blocks[j]| == size
    ensures 0 <= i * chunk + base <= i * chunk + base + size <= |s|
    ensures SpliceRanks(s, chunk, base, blocks)[i * chunk + base..i * chunk + base + size] == blocks[i]
    decreases |blocks|
  {
    var m := |blocks| - 1;
    BlockBounds(i, |blocks|, chunk);
    BlockBounds(m, |blocks|, chunk);
    var prev := SpliceRanks(s, chunk, base, blocks[..m]);
    if i < m {
      BlockBounds(i, m, chunk);
      SpliceRanksAt(s, chunk, base, size, blocks[..m], i);
      SpliceElsewhere(prev, m * chunk + base, blocks[m], i * chunk + base, i * chunk + base + size);
    }
  }

  lemma SpliceElsewhere<T>(s: seq<T>, at: nat, vals: seq<T>, lo: nat, hi: nat)
    requires at + |vals| <= |s| && lo <= hi <= |s|
    requires hi <= at || at + |vals| <= lo
    ensures Splice(s, at, vals)[lo..hi] == s[lo..hi]
  {
  }

  lemma SeparateWindows(i: nat, m: nat, chunk: nat, base: nat, size: nat, lo: nat, hi: nat)
    requires base + size <= chunk && lo <= hi <= chunk && (hi <= base || base + size <= lo)
    ensures i * chunk + hi <= m * chunk + base || m * chunk + base + size <= i * chunk + lo
  {
    if i < m {
      BlockBounds(i, m, chunk);
    } else if i > m {
      BlockBounds(m, i, chunk);
    }
  }

  /** Outside the window `[base, base + size)` of each chunk nothing moves. */
  lemma {:induction false} SpliceRanksElsewhere(s: seq<int>, chunk: nat, base: nat, size: nat, blocks: seq<seq<int>>,
                                                i: nat, at: nat, lo: nat, hi: nat)
    requires |blocks| * chunk <= |s| && base + size <= chunk
    requires at == i * chunk && at + chunk <= |s|
    requires forall j :: 0 <= j < |blocks| ==> |blocks[j]| == size
    requires lo <= hi <= chunk && (hi <= base || base + size <= lo)
    ensures SpliceRanks(s, chunk, base, blocks)[at + lo..at + hi] == s[at + lo..at + hi]
    decreases |blocks|
  {
    if blocks != [] {
      SpliceRanksStep(s, chunk, base, size, blocks, i, at, lo, hi);
      assert (|blocks| - 1) * chunk <= |blocks| * chunk;
      SpliceRanksElsewhere(s, chunk, base, size, blocks[..|blocks| - 1], i, at, lo, hi);
    }
  }

  lemma SpliceRanksStep(s: seq<int>, chunk: nat, base: nat, size: nat, blocks: seq<seq<int>>,
                        i: nat, at: nat, lo: nat, hi: nat)
    requires |blocks| * chunk <= |s| && base + size <= chunk && blocks != []
    requires at == i * chunk && at + chunk <= |s|
    requires forall j :: 0 <= j < |blocks| ==> |blocks[j]| == size
    requires lo <= hi <= chunk && (hi <= base || base + size <= lo)
    ensures (|blocks| - 1) * chunk <= |s|
    ensures SpliceRanks(s, chunk, base, blocks)[at + lo..at + hi] ==
            SpliceRanks(s, chunk, base, blocks[..|blocks| - 1])[at + lo..at + hi]
  {
    hide Splice;
    var m := |blocks| - 1;
    BlockBounds(m, |blocks|, chunk);
    SeparateWindows(i, m, chunk, base, size, lo, hi);
    SpliceElsewhere(SpliceRanks(s, chunk, base, blocks[..m]), m * chunk + base, blocks[m], at + lo, at + hi);
  }

  method ScatterBlock(a: array<int>, at: nat, rows: seq<nat>, p: seq<nat>)
    requires at + |p| <= a.Length
    requires forall j :: 0 <= j < |p| ==> p[j] < |rows|
    modifies a
    ensures a[..] == Splice(old(a[..]), at, Pick(rows, p))
  {
    ghost var before := a[..];
    var vals: seq<int> := Pick(rows, p);
    assert before == before[..at] + before[at..];
    for j := 0 to |p|
      invariant a[..] == before[..at] + vals[..j] + before[at + j..]
    {
      a[at + j] := rows[p[j]];
      assert vals[..j + 1] == vals[..j] + [vals[j]];
    }
    assert vals[..|p|] == vals;
  }

  lemma NoRanks(s: seq<int>, chunk: nat, base: nat)
    ensures SpliceRanks(s, chunk, base, []) == s
  {
  }

  lemma NextRank(s: seq<int>, chunk: nat, base: nat, blocks: seq<seq<int>>, block: seq<int>)
    requires |blocks| * chunk + chunk <= |s| && |blocks| * chunk <= |s| && base + |block| <= chunk
    requires forall i :: 0 <= i < |blocks| ==> base + |blocks[i]| <= chunk
    ensures |blocks + [block]| * chunk <= |s|
    ensures SpliceRanks(s, chunk, base, blocks + [block]) == Splice(SpliceRanks(s, chunk, base, blocks), |blocks| * chunk + base, block)
  {
    hide Splice;
    assert (blocks + [block])[..|blocks|] == blocks;
    assert |blocks + [block]| * chunk == |blocks| * chunk + chunk;
  }

  method ScatterSlot(a: array<int>, chunk: nat, base: nat, rows: seq<nat>, parts: seq<seq<nat>>, ghost size: nat)
      returns (ghost blocks: seq<seq<nat>>)
    requires |parts| * chunk <= a.Length && base + size <= chunk
    requires forall i :: 0 <= i < |parts| ==> |parts[i]| == size && forall j :: 0 <= j < size ==> parts[i][j] < |rows|
    modifies a
    ensures |blocks| == |parts|
    ensures forall i :: 0 <= i < |parts| ==> |blocks[i]| == size && blocks[i] == Pick(rows, parts[i])
    ensures a[..] == SpliceRanks(old(a[..]), chunk, base, blocks)
  {
    blocks := [];
    hide Splice, SpliceRanks;
    NoRanks(a[..], chunk, base);
    for i := 0 to |parts|
      invariant |blocks| == i
      invariant forall j :: 0 <= j < i ==> |blocks[j]| == size && blocks[j] == Pick(rows, parts[j])
      invariant i * chunk <= a.Length
      invariant a[..] == SpliceRanks(old(a[..]), chunk, base, blocks)
    {
      BlockBounds(i, |parts|, chunk);
      assert i * chunk + chunk == (i + 1) * chunk;
      ScatterBlock(a, i * chunk + base, rows, parts[i]);
      NextRank(old(a[..]), chunk, base, blocks, Pick(rows, parts[i]));
      blocks := blocks + [Pick(rows, parts[i])];
    }
  }

  // ----- one slot: choose the ranks' rows and write them -----

  lemma {:induction false} PickFlatten(s: seq<nat>, parts: seq<seq<nat>>, blocks: seq<seq<nat>>)
    requires forall i :: 0 <= i < |Flatten<nat>(parts)| ==> Flatten<nat>(parts)[i] < |s|
    requires |blocks| == |parts|
    requires forall i :: 0 <= i < |parts| ==> |blocks[i]| == |parts[i]|
    requires forall i, j :: 0 <= i < |parts| && 0 <= j < |parts[i]| ==> parts[i][j] < |s| && blocks[i][j] == s[parts[i][j]]
    ensures Flatten<nat>(blocks) == Pick(s, Flatten<nat>(parts))
  {
    if parts != [] {
      var tail := Flatten<nat>(parts[1..]);
      assert Flatten<nat>(parts) == parts[0] + tail;
      forall i | 0 <= i < |tail| ensures tail[i] < |s| {
        assert tail[i] == Flatten<nat>(parts)[|parts[0]| + i];
      }
      PickFlatten(s, parts[1..], blocks[1..]);
      assert blocks[0] == Pick(s, parts[0]);
    }
  }

  lemma PartEntries(parts: seq<seq<nat>>, n: nat, k: nat)
    requires IsEqualPartition(parts, n, k)
    ensures forall i, j :: 0 <= i < k && 0 <= j < |parts[i]| ==> parts[i][j] < n
    ensures forall i :: 0 <= i < |Flatten<nat>(parts)| ==> Flatten<nat>(parts)[i] < n
  {
    var all := Flatten<nat>(parts);
    PermutationEntries(all, n);
    forall i | 0 <= i < |all| ensures all[i] < n {
      assert all[i] in all;
    }
    forall i, j | 0 <= i < k && 0 <= j < |parts[i]| ensures parts[i][j] < n {
      FlattenMembers<nat>(parts, parts[i][j]);
    }
  }

  lemma SlotKeepsRows(rows: seq<nat>, parts: seq<seq<nat>>, blocks: seq<seq<nat>>, ranks: nat)
    requires IsEqualPartition(parts, |rows|, ranks) && |blocks| == ranks
    requires forall i, j :: 0 <= i < ranks && 0 <= j < |parts[i]| ==> parts[i][j] < |rows|
    requires forall i :: 0 <= i < ranks ==> blocks[i] == Pick(rows, parts[i])
    ensures multiset(Flatten<nat>(blocks)) == multiset(rows)
  {
    PartEntries(parts, |rows|, ranks);
    PickFlatten(rows, parts, blocks);
    PickPermuted<nat>(rows, Flatten<nat>(parts));
  }

  method PhaseTwo(lens: seq<nat>, rows: seq<nat>, ranks: nat) returns (r: Partitions)
    requires ranks > 0 && forall i :: 0 <= i < |rows| ==> rows[i] < |lens|
    ensures r.Parts? <==> rows != [] && |rows| % ranks == 0
    ensures r.Parts? ==> IsEqualPartition(r.parts, |rows|, ranks)
  {
    r := GetSeqlenBalancedPartitions(Pick(lens, rows), ranks);
  }

  /** Assign the rows of one slot to the ranks and write them; `size` rows
      each. Nothing is written when a row is missing or the rows do not split. */
  method PlaceSlot(a: array<int>, lens: seq<nat>, chunk: nat, base: nat, rows: seq<nat>, ranks: nat, ghost size: nat)
      returns (r: Placement, ghost blocks: seq<seq<nat>>)
    requires ranks > 0 && ranks * chunk <= a.Length && base + size <= chunk
    requires (forall i :: 0 <= i < |rows| ==> rows[i] < |lens|) && |rows| % ranks == 0 ==> |rows| == size * ranks
    modifies a
    ensures r.Placed? <==> (forall i :: 0 <= i < |rows| ==> rows[i] < |lens|) && rows != [] && |rows| % ranks == 0
    ensures r.NotPlaced? ==> r.why.RowOutOfRange? || r.why.PartitionFailed?
    ensures r.Placed? ==>
              && |blocks| == ranks
              && (forall i :: 0 <= i < ranks ==> |blocks[i]| == size)
              && multiset(Flatten<nat>(blocks)) == multiset(rows)
              && a[..] == SpliceRanks(old(a[..]), chunk, base, blocks)
  {
    blocks := [];
    if exists i :: 0 <= i < |rows| && rows[i] >= |lens| {
      return NotPlaced(RowOutOfRange), blocks;
    }
    var phase2 := PhaseTwo(lens, rows, ranks);
    if !phase2.Parts? {
      return NotPlaced(PartitionFailed), blocks;
    }
    var parts := phase2.parts;
    PartEntries(parts, |rows|, ranks);
    forall i | 0 <= i < ranks ensures |parts[i]| == size {
      SameFactor(|parts[i]|, size, ranks);
    }
    blocks := ScatterSlot(a, chunk, base, rows, parts, size);
    SlotKeepsRows(rows, parts, blocks, ranks);
    r := Placed;
  }

  lemma SameFactor(x: nat, y: nat, c: nat)
    requires c > 0 && x * c == y * c
    ensures x == y
  {
    DivModUnique(x, 0, c);
    DivModUnique(y, 0, c);
  }

  // ----- all slots -----

  ghost predicate SlotFilled(s: seq<int>, ranks: nat, chunk: nat, base: nat, size: nat, blocks: seq<seq<nat>>) {
    && base + size <= chunk && ranks * chunk <= |s| && |blocks| == ranks
    && forall i :: 0 <= i < ranks ==> |blocks[i]| == size && Window(s, ranks, chunk, base, size, i) == blocks[i]
  }

  lemma SpliceFillsSlot(s: seq<int>, ranks: nat, chunk: nat, base: nat, size: nat, blocks: seq<seq<nat>>)
    requires ranks * chunk <= |s| && base + size <= chunk && |blocks| == ranks
    requires forall i :: 0 <= i < ranks ==> |blocks[i]| == size
    ensures SlotFilled(SpliceRanks(s, chunk, base, blocks), ranks, chunk, base, size, blocks)
  {
    var t := SpliceRanks(s, chunk, base, blocks);
    forall i | 0 <= i < ranks ensures Window(t, ranks, chunk, base, size, i) == blocks[i] {
      SpliceRanksAt(s, chunk, base, size, blocks, i);
    }
  }

  lemma SpliceKeepsSlot(s: seq<int>, ranks: nat, chunk: nat, base: nat, size: nat, blocks: seq<seq<nat>>,
                        base': nat, blocks': seq<seq<nat>>)
    requires ranks * chunk <= |s| && base + size <= chunk && |blocks| == ranks
    requires forall i :: 0 <= i < ranks ==> |blocks[i]| == size
    requires SlotFilled(s, ranks, chunk, base', size, blocks')
    requires base' + size <= base
    ensures SlotFilled(SpliceRanks(s, chunk, base, blocks), ranks, chunk, base', size, blocks')
  {
    var t := SpliceRanks(s, chunk, base, blocks);
    forall i | 0 <= i < ranks ensures Window(t, ranks, chunk, base', size, i) == blocks'[i] {
      BlockBounds(i, ranks, chunk);
      SpliceRanksElsewhere(s, chunk, base, size, blocks, i, i * chunk, base', base' + size);
      assert Window(s, ranks, chunk, base', size, i) == blocks'[i];
    }
  }

  /** Slots `0..|table|` hold the blocks of `table`, slot `k` at offset
      `k * size` of each rank's chunk. */
  ghost predicate SlotsFilled(s: seq<int>, ranks: nat, chunk: nat, size: nat, table: seq<seq<seq<nat>>>) {
    forall k :: 0 <= k < |table| ==> SlotFilled(s, ranks, chunk, k * size, size, table[k])
  }

  lemma NextSlotFilled(s: seq<int>, ranks: nat, chunk: nat, size: nat, table: seq<seq<seq<nat>>>, base: nat, blocks: seq<seq<nat>>)
    requires ranks * chunk <= |s| && base == |table| * size && base + size <= chunk && |blocks| == ranks
    requires forall i :: 0 <= i < ranks ==> |blocks[i]| == size
    requires SlotsFilled(s, ranks, chunk, size, table)
    ensures SlotsFilled(SpliceRanks(s, chunk, base, blocks), ranks, chunk, size, table + [blocks])
  {
    var t := SpliceRanks(s, chunk, base, blocks);
    SpliceFillsSlot(s, ranks, chunk, base, size, blocks);
    forall k | 0 <= k < |table| ensures SlotFilled(t, ranks, chunk, k * size, size, table[k]) {
      BlockBounds(k, |table|, size);
      SpliceKeepsSlot(s, ranks, chunk, base, size, blocks, k * size, table[k]);
    }
  }

  /** When every slot is filled, the whole sequence holds the table's entries. */
  lemma FilledEntries(s: seq<nat>, ranks: nat, chunk: nat, size: nat, table: seq<seq<seq<nat>>>,
                      columns: seq<seq<nat>>, rows: seq<seq<nat>>)
    requires |s| == ranks * chunk && chunk == |table| * size
    requires SlotsFilled(s, ranks, chunk, size, table)
    requires forall k :: 0 <= k < |table| ==> |table[k]| == ranks
    requires |columns| == ranks && forall i :: 0 <= i < ranks ==> columns[i] == Flatten<nat>(Column<nat>(table, i))
    requires |rows| == |table| && forall k :: 0 <= k < |rows| ==> rows[k] == Flatten<nat>(table[k])
    ensures multiset(s) == multiset(Flatten<nat>(rows))
  {
    forall i | 0 <= i < ranks ensures IsBlock<nat>(s, i, chunk, columns[i]) {
      ChunkIsColumn(s, ranks, chunk, size, table, i);
    }
    FlattenBlocks<nat>(s, ranks, chunk, columns);
    RowsAndColumns<nat>(table, ranks, columns, rows);
  }

  lemma ChunkIsColumn(s: seq<nat>, ranks: nat, chunk: nat, size: nat, table: seq<seq<seq<nat>>>, i: nat)
    requires |s| == ranks * chunk && chunk == |table| * size && i < ranks
    requires SlotsFilled(s, ranks, chunk, size, table)
    requires forall k :: 0 <= k < |table| ==> |table[k]| == ranks
    ensures IsBlock<nat>(s, i, chunk, Flatten<nat>(Column<nat>(table, i)))
  {
    BlockBounds(i, ranks, chunk);
    var row := s[i * chunk..i * chunk + chunk];
    var blocks := Column<nat>(table, i);
    hide SlotsFilled, Flatten, Window;
    forall k | 0 <= k < |table| ensures IsBlock<nat>(row, k, size, blocks[k]) {
      SlotInColumn(s, ranks, chunk, size, table, i, k);
    }
    FlattenBlocks<nat>(row, |table|, size, blocks);
  }

  lemma SlotInColumn(s: seq<nat>, ranks: nat, chunk: nat, size: nat, table: seq<seq<seq<nat>>>, i: nat, k: nat)
    requires |s| == ranks * chunk && chunk == |table| * size && i < ranks && k < |table|
    requires SlotsFilled(s, ranks, chunk, size, table)
    requires |table[k]| == ranks
    ensures 0 <= i * chunk <= i * chunk + chunk <= |s|
    ensures IsBlock<nat>(s[i * chunk..i * chunk + chunk], k, size, table[k][i])
  {
    BlockBounds(i, ranks, chunk);
    BlockBounds(k, |table|, size);
    assert SlotFilled(s, ranks, chunk, k * size, size, table[k]);
    assert Window(s, ranks, chunk, k * size, size, i) == table[k][i];
    SliceOfSlice(s, i * chunk, i * chunk + chunk, k * size, k * size + size);
  }

  // ----- group rows -----

  lemma {:induction false} GroupRowsConcat(a: seq<nat>, b: seq<nat>, n: nat)
    ensures GroupRows(a + b, n) == GroupRows(a, n) + GroupRows(b, n)
  {
    if a == [] {
      assert a + b == b;
    } else {
      assert (a + b)[1..] == a[1..] + b;
      GroupRowsConcat(a[1..], b, n);
    }
  }

  lemma {:induction false} GroupRowsFlatten(groups: seq<seq<nat>>, n: nat, rows: seq<seq<nat>>)
    requires |rows| == |groups| && forall k :: 0 <= k < |rows| ==> multiset(rows[k]) == multiset(GroupRows(groups[k], n))
    ensures multiset(Flatten<nat>(rows)) == multiset(GroupRows(Flatten<nat>(groups), n))
  {
    if rows != [] {
      GroupRowsFlatten(groups[1..], n, rows[1..]);
      GroupRowsConcat(groups[0], Flatten<nat>(groups[1..]), n);
    }
  }

  /** A row belongs to the listed groups exactly when its group is listed. */
  lemma {:induction false} GroupRowsMembers(part: seq<nat>, n: nat, x: nat)
    requires n > 0
    ensures x in GroupRows(part, n) <==> x / n in part
    ensures multiset(GroupRows(part, n))[x] == multiset(part)[x / n]
  {
    if part != [] {
      var u := part[0];
      var block := seq(n, j requires 0 <= j => u * n + j);
      GroupRowsMembers(part[1..], n, x);
      assert part == [u] + part[1..];
      BlockMultiplicity(u, n, x, block);
      assert GroupRows(part, n) == block + GroupRows(part[1..], n);
      assert x in GroupRows(part, n) <==> x in multiset(GroupRows(part, n));
      assert x / n in part <==> x / n in multiset(part);
    }
  }

  lemma BlockMultiplicity(u: nat, n: nat, x: nat, block: seq<nat>)
    requires n > 0 && |block| == n && forall j :: 0 <= j < n ==> block[j] == u * n + j
    ensures multiset(block)[x] == if x / n == u then 1 else 0
  {
    forall j | 0 <= j < n ensures block[j] / n == u {
      DivModUnique(u, j, n);
    }
    DistinctOnce<nat>(block, x);
    if x / n == u {
      assert x == (x / n) * n + x % n;
      assert block[x % n] == x;
    }
  }

  lemma {:induction false} AllGroupRows(m: nat, n: nat)
    ensures GroupRows(Range(m), n) == Range(m * n)
  {
    if m > 0 {
      AllGroupRows(m - 1, n);
      assert Range(m) == Range(m - 1) + [m - 1];
      GroupRowsConcat(Range(m - 1), [m - 1], n);
      assert (m - 1) * n + n == m * n;
      assert [m - 1][1..] == [];
      assert GroupRows([m - 1], n) == seq(n, j requires 0 <= j => (m - 1) * n + j) + GroupRows([m - 1][1..], n);
    } else {
      assert Range(0) == [];
      assert m * n == 0;
    }
  }

  /** Rows of the groups of a permutation of `0..m` are the rows `0..m * n`. */
  lemma GroupRowsPermutation(p: seq<nat>, m: nat, n: nat)
    requires n > 0 && IsPermutation(p, m)
    ensures IsPermutation(GroupRows(p, n), m * n)
  {
    AllGroupRows(m, n);
    var a, b := multiset(GroupRows(p, n)), multiset(Range(m * n));
    forall x: nat ensures a[x] == b[x] {
      GroupRowsMembers(p, n, x);
      GroupRowsMembers(Range(m), n, x);
    }
  }

  // ----- the schedule -----

  /** The sizes of the divisible case: `slots` slots of `perSlot` groups. */
  ghost predicate EvenShape(batch: nat, ranks: nat, n: nat, perRank: nat, slots: nat, perSlot: nat) {
    && ranks > 0 && n > 0 && perRank > 0
    && ranks * perRank == perSlot * n
    && batch == slots * (ranks * perRank)
  }

  lemma EvenSizes(batch: nat, ranks: nat, n: nat, perRank: nat, slots: nat, perSlot: nat)
    requires EvenShape(batch, ranks, n, perRank, slots, perSlot)
    ensures batch == ranks * (slots * perRank) && batch / ranks == slots * perRank
    ensures batch == (slots * perSlot) * n && batch / n == slots * perSlot
    ensures batch / (ranks * perRank) == slots && batch % (ranks * perRank) == 0
  {
    assert slots * (ranks * perRank) == ranks * (slots * perRank) == (slots * perRank) * ranks;
    DivModUnique(slots * perRank, 0, ranks);
    assert slots * (perSlot * n) == (slots * perSlot) * n;
    DivModUnique(slots * perSlot, 0, n);
    assert ranks * perRank > 0;
    DivModUnique(slots, 0, ranks * perRank);
  }

  /** What the trainer relies on: the order is a permutation of the batch, and
      what the ranks hold at slot `k` is the rows of the `k`-th set of groups. */
  ghost predicate Scheduled(idx: seq<nat>, batch: nat, ranks: nat, n: nat, perRank: nat, slots: nat, groups: seq<seq<nat>>) {
    && |idx| == ranks * (slots * perRank) == batch
    && IsPermutation(idx, batch)
    && n > 0 && batch % n == 0 && IsEqualPartition(groups, batch / n, slots)
    && forall k :: 0 <= k < slots ==> SlotIs(idx, ranks, perRank, slots, k, GroupRows(groups[k], n))
  }

  ghost predicate SlotIs(idx: seq<nat>, ranks: nat, perRank: nat, slots: nat, k: nat, rows: seq<nat>)
    requires |idx| == ranks * (slots * perRank) && k < slots
  {
    BlockBounds(k, slots, perRank);
    multiset(SlotRows<nat>(idx, ranks, slots * perRank, perRank, k)) == multiset(rows)
  }

  lemma GroupRowsBelow(part: seq<nat>, n: nat, m: nat)
    requires n > 0 && forall i :: 0 <= i < |part| ==> part[i] < m
    ensures forall i :: 0 <= i < |GroupRows(part, n)| ==> GroupRows(part, n)[i] < m * n
  {
    var rows := GroupRows(part, n);
    forall i | 0 <= i < |rows| ensures rows[i] < m * n {
      GroupRowsMembers(part, n, rows[i]);
      assert rows[i] in rows;
      QuotientBelow(rows[i], n, m);
    }
  }

  lemma QuotientBelow(x: nat, n: nat, m: nat)
    requires n > 0 && x / n < m
    ensures x < m * n
  {
    assert x == (x / n) * n + x % n;
    BlockBounds(x / n, m, n);
  }

  method FillSlot(a: array<int>, lens: seq<nat>, chunk: nat, base: nat, rows: seq<nat>, ranks: nat,
                  ghost perRank: nat, ghost table: seq<seq<seq<nat>>>)
      returns (ghost blocks: seq<seq<nat>>)
    requires ranks > 0 && perRank > 0 && ranks * chunk <= a.Length && base + perRank <= chunk
    requires base == |table| * perRank
    requires |rows| == perRank * ranks && forall i :: 0 <= i < |rows| ==> rows[i] < |lens|
    requires SlotsFilled(a[..], ranks, chunk, perRank, table)
    modifies a
    ensures SlotsFilled(a[..], ranks, chunk, perRank, table + [blocks])
    ensures |blocks| == ranks && multiset(Flatten<nat>(blocks)) == multiset(rows)
  {
    ghost var before := a[..];
    DivModUnique(perRank, 0, ranks);
    assert perRank * ranks > 0;
    var status;
    status, blocks := PlaceSlot(a, lens, chunk, base, rows, ranks, perRank);
    NextSlotFilled(before, ranks, chunk, perRank, table, base, blocks);
  }

  ghost predicate HoldsGroups(blocks: seq<seq<nat>>, ranks: nat, part: seq<nat>, n: nat) {
    |blocks| == ranks && multiset(Flatten<nat>(blocks)) == multiset(GroupRows(part, n))
  }

  lemma NothingFilled(s: seq<int>, ranks: nat, chunk: nat, perRank: nat)
    requires |s| == ranks * chunk
    ensures SlotsFilled(s, ranks, chunk, perRank, [])
  {
  }

  /** The loop over the slots of the divisible case. */
  method PlaceSlots(a: array<int>, lens: seq<nat>, ranks: nat, n: nat, perRank: nat, groups: seq<seq<nat>>,
                    chunk: nat, ghost perSlot: nat)
      returns (ghost table: seq<seq<seq<nat>>>)
    requires EvenShape(|lens|, ranks, n, perRank, |groups|, perSlot)
    requires chunk == |groups| * perRank && a.Length == |lens| == ranks * chunk == (|groups| * perSlot) * n
    requires forall k :: 0 <= k < |groups| ==> |groups[k]| == perSlot
    requires forall k, i :: 0 <= k < |groups| && 0 <= i < |groups[k]| ==> groups[k][i] < |groups| * perSlot
    modifies a
    ensures SlotsFilled(a[..], ranks, chunk, perRank, table) && TableHolds(table, ranks, groups, n)
  {
    hide SlotsFilled, GroupRows, Flatten;
    table := [];
    NothingFilled(a[..], ranks, chunk, perRank);
    for k := 0 to |groups|
      invariant |table| == k && SlotsFilled(a[..], ranks, chunk, perRank, table)
      invariant forall j :: 0 <= j < k ==> HoldsGroups(table[j], ranks, groups[j], n)
    {
      BlockBounds(k, |groups|, perRank);
      var rows := GroupRows(groups[k], n);
      GroupRowsBelow(groups[k], n, |groups| * perSlot);
      ghost var blocks := FillSlot(a, lens, chunk, k * perRank, rows, ranks, perRank, table);
      assert HoldsGroups(blocks, ranks, groups[k], n);
      table := table + [blocks];
    }
  }

  ghost predicate TableHolds(table: seq<seq<seq<nat>>>, ranks: nat, groups: seq<seq<nat>>, n: nat) {
    |table| == |groups| && forall k :: 0 <= k < |table| ==> HoldsGroups(table[k], ranks, groups[k], n)
  }

  lemma TableRows(idx: seq<nat>, ranks: nat, n: nat, perRank: nat, groups: seq<seq<nat>>, table: seq<seq<seq<nat>>>)
    requires |idx| == ranks * (|groups| * perRank) && TableHolds(table, ranks, groups, n)
    requires SlotsFilled(idx, ranks, |groups| * perRank, perRank, table)
    ensures multiset(idx) == multiset(GroupRows(Flatten<nat>(groups), n))
  {
    var rows := seq(|table|, k requires 0 <= k < |table| => Flatten<nat>(table[k]));
    forall k | 0 <= k < |table| ensures |table[k]| == ranks && multiset(rows[k]) == multiset(GroupRows(groups[k], n)) {
      assert HoldsGroups(table[k], ranks, groups[k], n);
    }
    FilledEntries(idx, ranks, |groups| * perRank, perRank, table, Columns<nat>(table, ranks), rows);
    GroupRowsFlatten(groups, n, rows);
  }

  lemma EvenScheduled(idx: seq<nat>, ranks: nat, n: nat, perRank: nat, perSlot: nat,
                      groups: seq<seq<nat>>, table: seq<seq<seq<nat>>>)
    requires EvenShape(|idx|, ranks, n, perRank, |groups|, perSlot)
    requires IsEqualPartition(groups, |groups| * perSlot, |groups|)
    requires SlotsFilled(idx, ranks, |groups| * perRank, perRank, table) && TableHolds(table, ranks, groups, n)
    ensures Scheduled(idx, |idx|, ranks, n, perRank, |groups|, groups)
  {
    hide GroupRows, SlotRows, Flatten, Range;
    EvenSizes(|idx|, ranks, n, perRank, |groups|, perSlot);
    TableRows(idx, ranks, n, perRank, groups, table);
    GroupRowsPermutation(Flatten<nat>(groups), |groups| * perSlot, n);
    DivModUnique(|groups| * perSlot, 0, n);
    forall k | 0 <= k < |groups| ensures SlotIs(idx, ranks, perRank, |groups|, k, GroupRows(groups[k], n)) {
      BlockBounds(k, |groups|, perRank);
      assert HoldsGroups(table[k], ranks, groups[k], n);
      SlotRowsAre(idx, ranks, |groups| * perRank, perRank, k, table[k]);
    }
  }

  lemma SlotRowsAre(idx: seq<nat>, ranks: nat, chunk: nat, perRank: nat, k: nat, blocks: seq<seq<nat>>)
    requires k * perRank + perRank <= chunk
    requires SlotFilled(idx, ranks, chunk, k * perRank, perRank, blocks)
    ensures SlotRows<nat>(idx, ranks, chunk, perRank, k) == Flatten<nat>(blocks)
  {
    var own := SlotBlocks<nat>(idx, ranks, chunk, perRank, k);
    forall i | 0 <= i < ranks ensures own[i] == blocks[i] {
      assert Window(idx, ranks, chunk, k * perRank, perRank, i) == blocks[i];
    }
    assert own == blocks;
  }

  lemma FilledAt(s: seq<int>, ranks: nat, chunk: nat, size: nat, table: seq<seq<seq<nat>>>, i: nat, k: nat, j: nat)
    requires |s| == ranks * chunk && chunk == |table| * size
    requires SlotsFilled(s, ranks, chunk, size, table)
    requires i < ranks && k < |table| && j < size
    ensures 0 <= i * chunk + (k * size + j) < |s| && s[i * chunk + (k * size + j)] >= 0
  {
    BlockBounds(k, |table|, size);
    BlockBounds(i, ranks, chunk);
    assert SlotFilled(s, ranks, chunk, k * size, size, table[k]);
    var w := Window(s, ranks, chunk, k * size, size, i);
    assert w == table[k][i];
    assert s[i * chunk + (k * size + j)] == w[j];
  }

  /** With every slot filled no placeholder is left. */
  lemma NoPlaceholder(s: seq<int>, ranks: nat, chunk: nat, size: nat, table: seq<seq<seq<nat>>>, p: nat)
    requires size > 0 && chunk > 0 && |s| == ranks * chunk && chunk == |table| * size && p < |s|
    requires SlotsFilled(s, ranks, chunk, size, table)
    ensures s[p] >= 0
  {
    var i, q := p / chunk, p % chunk;
    assert p == i * chunk + q;
    QuotientInside(p, chunk, ranks);
    var k, j := q / size, q % size;
    assert q == k * size + j;
    QuotientInside(q, size, |table|);
    FilledAt(s, ranks, chunk, size, table, i, k, j);
  }

  lemma QuotientInside(x: nat, c: nat, m: nat)
    requires c > 0 && x < m * c
    ensures x / c < m
  {
    var q := x / c;
    assert x == q * c + x % c;
    assert q >= m ==> q * c >= m * c;
  }

  lemma EvenFrom(batch: nat, ranks: nat, n: nat, perRank: nat)
    requires ranks > 0 && n > 0 && perRank > 0 && ranks * perRank > 0
    requires ranks * perRank % n == 0 && batch % (ranks * perRank) == 0
    ensures EvenShape(batch, ranks, n, perRank, batch / (ranks * perRank), ranks * perRank / n)
  {
  }

  method ScheduleEven(lens: seq<nat>, ranks: nat, n: nat, perRank: nat, groups: seq<seq<nat>>, ghost perSlot: nat)
      returns (idx: seq<int>)
    requires EvenShape(|lens|, ranks, n, perRank, |groups|, perSlot)
    requires IsEqualPartition(groups, |groups| * perSlot, |groups|)
    ensures |idx| == |lens| && forall p :: 0 <= p < |idx| ==> idx[p] >= 0
    ensures Scheduled(idx, |lens|, ranks, n, perRank, |groups|, groups)
  {
    EvenSizes(|lens|, ranks, n, perRank, |groups|, perSlot);
    PartEntries(groups, |groups| * perSlot, |groups|);
    forall k | 0 <= k < |groups| ensures |groups[k]| == perSlot {
      assert |groups[k]| * |groups| == perSlot * |groups|;
      SameFactor(|groups[k]|, perSlot, |groups|);
    }
    var a := new int[|lens|](_ => -1);
    var chunk := |lens| / ranks;
    ghost var table := PlaceSlots(a, lens, ranks, n, perRank, groups, chunk, perSlot);
    idx := a[..];
    forall p | 0 <= p < |idx| ensures idx[p] >= 0 {
      assert chunk != 0;
      NoPlaceholder(idx, ranks, chunk, perRank, table, p);
    }
    EvenScheduled(idx, ranks, n, perRank, perSlot, groups, table);
  }

  // ----- a batch that fills no slot -----

  lemma QuotientMonotone(x: nat, y: nat, c: nat)
    requires c > 0 && x <= y
    ensures x / c <= y / c && c * (y / c) <= y
  {
    var a, b := x / c, y / c;
    assert x == a * c + x % c && y == b * c + y % c;
    assert a >= b + 1 ==> a * c >= (b + 1) * c;
    assert (b + 1) * c == b * c + c;
  }

  /** The first group is lost: its `n` places stay unset, and every other row
      has one place. */
  ghost predicate FirstGroupLost(idx: seq<int>, batch: nat, n: nat) {
    && |idx| == batch && multiset(idx)[-1] == n
    && (forall x :: x in idx ==> x == -1 || n <= x < batch)
    && forall x: int :: n <= x < batch ==> multiset(idx)[x] == 1
  }

  /** A short ragged batch is reordered only if it has whole groups, more than
      one, and the groups behind the first split over the ranks. */
  predicate ShortFits(batch: nat, ranks: nat, n: nat)
    requires ranks > 0 && n > 0
  {
    batch % n == 0 && batch > n && (batch - n) % ranks == 0
  }

  lemma {:induction false} SpliceRanksBehind(s: seq<int>, chunk: nat, blocks: seq<seq<nat>>)
    requires |blocks| * chunk <= |s| && forall i :: 0 <= i < |blocks| ==> 0 + |blocks[i]| <= chunk
    ensures SpliceRanks(s, chunk, 0, blocks)[|blocks| * chunk..] == s[|blocks| * chunk..]
    decreases |blocks|
  {
    if blocks != [] {
      var m := |blocks| - 1;
      BlockBounds(m, |blocks|, chunk);
      assert |blocks| * chunk == m * chunk + chunk;
      SpliceRanksBehind(s, chunk, blocks[..m]);
      SpliceBehind(SpliceRanks(s, chunk, 0, blocks[..m]), s, m * chunk, chunk, blocks[m]);
    }
  }

  lemma SpliceBehind(p: seq<int>, s: seq<int>, at: nat, chunk: nat, vals: seq<int>)
    requires |p| == |s| && |vals| <= chunk && at + chunk <= |s| && p[at..] == s[at..]
    ensures Splice(p, at, vals)[at + chunk..] == s[at + chunk..]
  {
    forall j | at + chunk <= j < |s| ensures Splice(p, at, vals)[j] == s[j] {
      assert p[j] == p[at..][j - at] && s[j] == s[at..][j - at];
    }
  }

  lemma SpliceCounts(p: seq<int>, at: nat, vals: seq<int>, x: int)
    requires at + |vals| <= |p|
    ensures multiset(Splice(p, at, vals))[x] + multiset(p[at..at + |vals|])[x] == multiset(p)[x] + multiset(vals)[x]
  {
    assert p == p[..at] + p[at..at + |vals|] + p[at + |vals|..];
  }

  lemma {:induction false} UnsetCounts(s: seq<int>, x: int)
    requires forall i :: 0 <= i < |s| ==> s[i] == -1
    ensures multiset(s)[x] == if x == -1 then |s| else 0
  {
    if s != [] {
      UnsetCounts(s[1..], x);
      assert s == [s[0]] + s[1..];
    }
  }

  /** How often a value stands in unset places after the ranks' rows are written. */
  lemma {:induction false} PlacedCounts(s: seq<int>, chunk: nat, blocks: seq<seq<nat>>, x: int)
    requires |blocks| * chunk <= |s| && forall i :: 0 <= i < |blocks| ==> 0 + |blocks[i]| <= chunk
    requires forall i :: 0 <= i < |s| ==> s[i] == -1
    ensures x >= 0 ==> multiset(SpliceRanks(s, chunk, 0, blocks))[x] == multiset(Flatten<nat>(blocks))[x]
    ensures x == -1 ==> multiset(SpliceRanks(s, chunk, 0, blocks))[x] + |Flatten<nat>(blocks)| == |s|
    ensures x < -1 ==> multiset(SpliceRanks(s, chunk, 0, blocks))[x] == 0
    decreases |blocks|
  {
    if blocks == [] {
      UnsetCounts(s, x);
    } else {
      var m := |blocks| - 1;
      BlockBounds(m, |blocks|, chunk);
      var prev, vals := SpliceRanks(s, chunk, 0, blocks[..m]), blocks[m];
      PlacedCounts(s, chunk, blocks[..m], x);
      SpliceRanksBehind(s, chunk, blocks[..m]);
      hide *;
      LastBlock(s, chunk, blocks);
      WriteUnset(prev, s, m * chunk, vals, x);
      FlattenLast(blocks, x);
    }
  }

  /** Writing over unset places takes as many of them as there are values. */
  lemma WriteUnset(p: seq<int>, s: seq<int>, at: nat, vals: seq<nat>, x: int)
    requires |p| == |s| && at + |vals| <= |s| && p[at..] == s[at..] && forall i :: 0 <= i < |s| ==> s[i] == -1
    ensures x >= 0 ==> multiset(Splice(p, at, vals))[x] == multiset(p)[x] + multiset(vals)[x]
    ensures x == -1 ==> multiset(Splice(p, at, vals))[x] + |vals| == multiset(p)[x]
    ensures x < -1 ==> multiset(Splice(p, at, vals))[x] == multiset(p)[x]
  {
    var window := p[at..at + |vals|];
    forall i | 0 <= i < |vals| ensures window[i] == -1 {
      assert p[at..][i] == s[at..][i] == s[at + i];
    }
    UnsetCounts(window, x);
    SpliceCounts(p, at, vals, x);
    hide Splice;
    if x < 0 {
      NatCounts(vals, x);
    }
  }

  lemma LastBlock(s: seq<int>, chunk: nat, blocks: seq<seq<nat>>)
    requires blocks != [] && |blocks| * chunk <= |s| && forall i :: 0 <= i < |blocks| ==> 0 + |blocks[i]| <= chunk
    ensures var m := |blocks| - 1;
            && m * chunk + chunk <= |s|
            && SpliceRanks(s, chunk, 0, blocks) == Splice(SpliceRanks(s, chunk, 0, blocks[..m]), m * chunk, blocks[m])
  {
    BlockBounds(|blocks| - 1, |blocks|, chunk);
    hide Splice;
  }

  lemma NatCounts(vals: seq<int>, x: int)
    requires x < 0 && forall i :: 0 <= i < |vals| ==> vals[i] >= 0
    ensures multiset(vals)[x] == 0
  {
    assert x !in vals;
  }

  lemma FlattenLast(blocks: seq<seq<nat>>, x: int)
    requires blocks != []
    ensures var m := |blocks| - 1;
            && |Flatten<nat>(blocks)| == |Flatten<nat>(blocks[..m])| + |blocks[m]|
            && multiset(Flatten<nat>(blocks))[x] == multiset(Flatten<nat>(blocks[..m]))[x] + multiset(blocks[m])[x]
  {
    hide *;
    var m := |blocks| - 1;
    FlattenFront(blocks);
    ConcatCounts(Flatten<nat>(blocks[..m]), blocks[m], Flatten<nat>(blocks), x);
  }

  lemma FlattenFront(blocks: seq<seq<nat>>)
    requires blocks != []
    ensures Flatten<nat>(blocks) == Flatten<nat>(blocks[..|blocks| - 1]) + blocks[|blocks| - 1]
  {
    hide *;
    var m := |blocks| - 1;
    assert blocks == blocks[..m] + [blocks[m]];
    FlattenAppend<nat>(blocks[..m], blocks[m]);
  }

  lemma ConcatCounts(a: seq<nat>, b: seq<nat>, c: seq<nat>, x: int)
    requires c == a + b
    ensures |c| == |a| + |b| && multiset(c)[x] == multiset(a)[x] + multiset(b)[x]
  {
  }

  lemma GroupOfRow(x: nat, n: nat, groups: nat)
    requires n > 0
    ensures n <= x < n + groups * n <==> 1 <= x / n <= groups
  {
    var u := x / n;
    assert x == u * n + x % n;
    MulOrder(u + 1, 1, n);
    MulOrder(1, u, n);
    MulOrder(u, groups, n);
    MulOrder(groups + 1, u, n);
    assert (u + 1) * n == u * n + n && (groups + 1) * n == groups * n + n;
  }

  /** The rows of the groups behind the first. */
  lemma ShortRows(partition: seq<nat>, n: nat, x: nat)
    requires n > 0 && forall i :: 0 <= i < |partition| ==> partition[i] == i + 1
    ensures multiset(GroupRows(partition, n))[x] == if n <= x < n + |partition| * n then 1 else 0
    ensures x in GroupRows(partition, n) <==> n <= x < n + |partition| * n
  {
    hide GroupRows;
    GroupRowsMembers(partition, n, x);
    GroupOfRow(x, n, |partition|);
    Successors(partition, x / n);
  }

  lemma Successors(partition: seq<nat>, u: nat)
    requires forall i :: 0 <= i < |partition| ==> partition[i] == i + 1
    ensures multiset(partition)[u] == if 1 <= u <= |partition| then 1 else 0
    ensures u in partition <==> 1 <= u <= |partition|
  {
    DistinctOnce(partition, u);
    if 1 <= u <= |partition| {
      assert partition[u - 1] == u;
    }
  }

  /** All rows of the groups exist exactly when the batch has whole groups. */
  lemma ShortRowsExist(partition: seq<nat>, n: nat, batch: nat)
    requires n > 0 && forall i :: 0 <= i < |partition| ==> partition[i] == i + 1
    requires |partition| * n < batch <= (|partition| + 1) * n
    ensures |GroupRows(partition, n)| == |partition| * n
    ensures partition != [] ==> ((forall i :: 0 <= i < |GroupRows(partition, n)| ==> GroupRows(partition, n)[i] < batch)
                                 <==> batch == (|partition| + 1) * n)
  {
    var rows := GroupRows(partition, n);
    assert (|partition| + 1) * n == n + |partition| * n;
    forall i | 0 <= i < |rows| ensures rows[i] < n + |partition| * n {
      assert rows[i] in rows;
      ShortRows(partition, n, rows[i]);
    }
    if partition != [] {
      MulOrder(1, |partition|, n);
      ShortRows(partition, n, n + |partition| * n - 1);
    }
  }

  lemma WholeGroupCount(batch: nat, n: nat, groupCount: nat)
    requires n > 0 && groupCount > 0 && (groupCount - 1) * n < batch <= groupCount * n
    ensures batch % n == 0 <==> batch == groupCount * n
    ensures batch > n <==> groupCount > 1
  {
    if batch % n == 0 {
      var q := batch / n;
      assert batch == q * n;
      MulOrder(q, groupCount - 1, n);
      MulOrder(groupCount + 1, q, n);
      assert (groupCount + 1) * n == groupCount * n + n;
    } else if batch == groupCount * n {
      DivModUnique(groupCount, 0, n);
    }
    MulOrder(groupCount, 1, n);
    MulOrder(1, groupCount - 1, n);
  }

  lemma ShortGroupCount(lens: seq<nat>, n: nat)
    requires n > 0 && lens != []
    ensures var g := |Split(lens, n)|; g > 0 && (g - 1) * n < |lens| <= g * n
  {
    SplitCount(lens, n);
    hide Split;
  }

  /** Fewer rows than one slot: the groups are taken from the second on. The
      rows of the first are never placed, and their places stay unset. */
  method ScheduleShort(lens: seq<nat>, ranks: nat, n: nat, groupCount: nat) returns (r: Balance)
    requires ranks > 0 && n > 0 && groupCount > 0 && (groupCount - 1) * n < |lens| <= groupCount * n
    ensures r.Reordered? || r.RowOutOfRange? || r.PartitionFailed?
    ensures r.Reordered? <==> ShortFits(|lens|, ranks, n)
    ensures r.Reordered? ==> FirstGroupLost(r.idx, |lens|, n)
  {
    var partition: seq<nat> := seq(groupCount - 1, i requires 0 <= i => i + 1);
    var rows := GroupRows(partition, n);
    var chunk := |lens| / ranks;
    QuotientMonotone(0, |lens|, ranks);
    ShortRowsExist(partition, n, |lens|);
    WholeGroupCount(|lens|, n, groupCount);
    if forall i :: 0 <= i < |rows| ==> rows[i] < |lens| {
      QuotientMonotone(|rows|, |lens|, ranks);
      assert groupCount > 1 ==> |rows| == |lens| - n;
      MulOrder(1, groupCount - 1, n);
      r := ScatterShort(lens, ranks, n, rows, chunk, partition);
    } else {
      r := RowOutOfRange;
    }
  }

  method ScatterShort(lens: seq<nat>, ranks: nat, n: nat, rows: seq<nat>, chunk: nat, ghost partition: seq<nat>) returns (r: Balance)
    requires ranks > 0 && n > 0 && ranks * chunk <= |lens| && |rows| / ranks <= chunk
    requires forall i :: 0 <= i < |rows| ==> rows[i] < |lens|
    requires rows == GroupRows(partition, n) && forall i :: 0 <= i < |partition| ==> partition[i] == i + 1
    requires rows != [] ==> |rows| == |lens| - n
    ensures r.Reordered? || r.PartitionFailed?
    ensures r.Reordered? <==> rows != [] && |rows| % ranks == 0
    ensures r.Reordered? ==> FirstGroupLost(r.idx, |lens|, n)
  {
    var a := new int[|lens|](_ => -1);
    ghost var before := a[..];
    var status;
    ghost var blocks;
    status, blocks := PlaceSlot(a, lens, chunk, 0, rows, ranks, |rows| / ranks);
    if status.NotPlaced? {
      return PartitionFailed;
    }
    r := Reordered(a[..]);
    assert forall i :: 0 <= i < |before| ==> before[i] == -1;
    ShortPlaces(before, chunk, blocks, rows, partition, n);
  }

  lemma ShortPlaces(s: seq<int>, chunk: nat, blocks: seq<seq<nat>>, rows: seq<nat>, partition: seq<nat>, n: nat)
    requires |blocks| * chunk <= |s| && forall i :: 0 <= i < |blocks| ==> 0 + |blocks[i]| <= chunk
    requires forall i :: 0 <= i < |s| ==> s[i] == -1
    requires multiset(Flatten<nat>(blocks)) == multiset(rows)
    requires n > 0 && rows == GroupRows(partition, n) && forall i :: 0 <= i < |partition| ==> partition[i] == i + 1
    requires |rows| == |s| - n
    ensures FirstGroupLost(SpliceRanks(s, chunk, 0, blocks), |s|, n)
  {
    var idx := SpliceRanks(s, chunk, 0, blocks);
    assert |Flatten<nat>(blocks)| == |rows| by {
      assert |multiset(Flatten<nat>(blocks))| == |Flatten<nat>(blocks)| && |multiset(rows)| == |rows|;
    }
    hide SpliceRanks, GroupRows, Flatten;
    PlacedCounts(s, chunk, blocks, -1);
    forall x | x in idx ensures x == -1 || n <= x < |s| {
      assert x in multiset(idx);
      PlacedCounts(s, chunk, blocks, x);
      if x >= 0 {
        ShortRows(partition, n, x);
      }
    }
    forall x: int | n <= x < |s| ensures multiset(idx)[x] == 1 {
      PlacedCounts(s, chunk, blocks, x);
      ShortRows(partition, n, x);
    }
  }

  /** The row that an entry selects: a negative one counts from the end. */
  function Taken(idx: seq<int>, batch: nat): (r: seq<int>)
    ensures |r| == |idx|
  {
    seq(|idx|, p requires 0 <= p < |idx| => if idx[p] < 0 then batch + idx[p] else idx[p])
  }

  lemma {:induction false} TakenCounts(idx: seq<int>, batch: nat, x: int)
    requires forall p :: 0 <= p < |idx| ==> -1 <= idx[p] < batch
    ensures multiset(Taken(idx, batch))[x]
      == (if x >= 0 then multiset(idx)[x] else 0) + if x == batch - 1 then multiset(idx)[-1] else 0
  {
    if idx != [] {
      TakenCounts(idx[1..], batch, x);
      assert idx == [idx[0]] + idx[1..];
      assert Taken(idx, batch) == [if idx[0] < 0 then batch + idx[0] else idx[0]] + Taken(idx[1..], batch);
    }
  }

  /** So the last row stands for the whole first group: it is taken `n` times
      more. */
  lemma LostGroupRepeatsLast(idx: seq<int>, batch: nat, n: nat)
    requires n > 0 && batch > n && FirstGroupLost(idx, batch, n)
    ensures multiset(Taken(idx, batch))[batch - 1] == n + 1
    ensures forall x :: 0 <= x < n ==> multiset(Taken(idx, batch))[x] == 0
    ensures forall x :: n <= x < batch - 1 ==> multiset(Taken(idx, batch))[x] == 1
  {
    forall p | 0 <= p < |idx| ensures -1 <= idx[p] < batch {
      assert idx[p] in idx;
    }
    forall x: int ensures multiset(Taken(idx, batch))[x]
      == (if x >= 0 then multiset(idx)[x] else 0) + if x == batch - 1 then multiset(idx)[-1] else 0
    {
      TakenCounts(idx, batch, x);
    }
    hide Taken;
    forall x: int | 0 <= x < n ensures multiset(idx)[x] == 0 {
      assert x !in idx;
    }
  }

  // ----- the whole method -----

  /** The batch balancer. The order it returns is a permutation that keeps
      whole prompt groups inside each micro-batch slot exactly when the batch
      is a positive multiple of what the ranks take per slot (and a slot is
      made of whole groups); a shorter one is reordered only if it fits, and
      then loses its first group; a longer ragged one is an error. */
  method BalanceBatch(lens: seq<nat>, ranks: nat, n: nat, perRank: nat) returns (r: Balance, groups: seq<seq<nat>>)
    requires ranks > 0 && n > 0 && perRank > 0
    ensures r.GroupAssertion? <==> ranks * perRank % n != 0
    ensures ranks * perRank > 0
    ensures ranks * perRank % n == 0 && lens != [] && |lens| % (ranks * perRank) == 0 ==>
              && r.Reordered? && (forall p :: 0 <= p < |r.idx| ==> r.idx[p] >= 0)
              && Scheduled(r.idx, |lens|, ranks, n, perRank, |lens| / (ranks * perRank), groups)
    ensures ranks * perRank % n == 0 && |lens| > ranks * perRank && |lens| % (ranks * perRank) != 0 ==> r.NonIntegerSlice?
    ensures ranks * perRank % n == 0 && lens == [] ==> r.PartitionFailed?
    ensures ranks * perRank % n == 0 && 0 < |lens| < ranks * perRank ==>
              && (r.Reordered? <==> ShortFits(|lens|, ranks, n))
              && (r.Reordered? ==> FirstGroupLost(r.idx, |lens|, n))
  {
    groups := [];
    if ranks * perRank % n != 0 {
      return GroupAssertion, groups;
    }
    r, groups := BalanceSlots(lens, ranks, n, perRank, ranks * perRank);
  }

  /** The same, once a slot is known to be made of whole groups. */
  method BalanceSlots(lens: seq<nat>, ranks: nat, n: nat, perRank: nat, slotSize: nat) returns (r: Balance, groups: seq<seq<nat>>)
    requires ranks > 0 && n > 0 && perRank > 0 && slotSize == ranks * perRank > 0 && slotSize % n == 0
    ensures !r.GroupAssertion?
    ensures lens != [] && |lens| % slotSize == 0 ==>
              && r.Reordered? && (forall p :: 0 <= p < |r.idx| ==> r.idx[p] >= 0)
              && Scheduled(r.idx, |lens|, ranks, n, perRank, |lens| / slotSize, groups)
    ensures |lens| > slotSize && |lens| % slotSize != 0 ==> r.NonIntegerSlice?
    ensures lens == [] ==> r.PartitionFailed?
    ensures 0 < |lens| < slotSize ==>
              && (r.Reordered? <==> ShortFits(|lens|, ranks, n))
              && (r.Reordered? ==> FirstGroupLost(r.idx, |lens|, n))
  {
    hide FirstGroupLost, ShortFits, Split, Scheduled, IsEqualPartition;
    groups := [];
    var slots := |lens| / slotSize;
    SlotCases(|lens|, slotSize);
    var phase1Lens := Map(SumNat, Split(lens, n));
    if |lens| % slotSize == 0 {
      EvenFrom(|lens|, ranks, n, perRank);
      EvenSizes(|lens|, ranks, n, perRank, slots, slotSize / n);
      SplitEven(lens, n, slots * (slotSize / n));
      EvenPhaseOne(slots, slotSize / n, |lens|, n);
      var phase1 := GetSeqlenBalancedPartitions(phase1Lens, slots);
      if !phase1.Parts? {
        return PartitionFailed, groups;
      }
      groups := phase1.parts;
      var idx := ScheduleEven(lens, ranks, n, perRank, phase1.parts, slotSize / n);
      r := Reordered(idx);
    } else if slots > 0 {
      r := NonIntegerSlice;
    } else {
      ShortGroupCount(lens, n);
      r := ScheduleShort(lens, ranks, n, |phase1Lens|);
    }
  }

  lemma SlotCases(batch: nat, slotSize: nat)
    requires slotSize > 0
    ensures batch == 0 ==> batch % slotSize == 0 && batch / slotSize == 0
    ensures 0 < batch < slotSize ==> batch % slotSize != 0 && batch / slotSize == 0
    ensures batch > slotSize ==> batch / slotSize > 0
  {
  }

  lemma EvenPhaseOne(slots: nat, perSlot: nat, batch: nat, n: nat)
    requires n > 0 && batch == (slots * perSlot) * n
    ensures slots > 0 ==> (slots * perSlot) % slots == 0
    ensures batch > 0 ==> slots > 0 && slots * perSlot > 0
  {
    if slots > 0 {
      DivModUnique(perSlot, 0, slots);
      assert slots * perSlot == perSlot * slots;
    }
  }
}
