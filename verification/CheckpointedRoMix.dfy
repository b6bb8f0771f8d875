/** ROMix over word arrays, keeping every `stride`-th block and recomputing the others (section 5 of RFC 7914). */
module CheckpointedRoMix {
  import opened RoMix
  import opened Salsa

  // ----- the mixing function on blocks of words -----

  function Mixed<W>(ops: WordOps<W>, r: nat, block: seq<W>): (z: seq<W>)
    ensures |z| == |block|
  {
    if r > 0 && |block| == 32 * r then BlockMix(ops, r, block) else block
  }

  function Mixer<W>(ops: WordOps<W>, r: nat): seq<W> -> seq<W> {
    block => Mixed(ops, r, block)
  }

  function Combined<W>(ops: WordOps<W>, x: seq<W>, y: seq<W>): (z: seq<W>)
    ensures |z| == |x|
  {
    if |x| == |y| then XorWords(ops, x, y) else x
  }

  function Combiner<W>(ops: WordOps<W>): (seq<W>, seq<W>) -> seq<W> {
    (x, y) => Combined(ops, x, y)
  }

  /** The index picked from the first word of a block's last chunk. */
  function Picked<W>(mask: W -> nat, block: seq<W>): nat {
    if |block| >= 16 then mask(block[|block| - 16]) else 0
  }

  function Picker<W>(mask: W -> nat): seq<W> -> nat {
    block => Picked(mask, block)
  }

  // ----- rows of the flat checkpoint table -----

  ghost predicate Holds<W>(table: seq<W>, words: nat, row: nat, x: seq<W>) {
    words * row + words <= |table| && table[words * row..words * row + words] == x
  }

  ghost predicate HoldsAll<W>(table: seq<W>, words: nat, rows: seq<seq<W>>) {
    forall i :: 0 <= i < |rows| ==> Holds(table, words, i, rows[i])
  }

  lemma RowFits(words: nat, row: nat, count: nat)
    requires row < count
    ensures words * row + words <= words * count
  {
    TimesMonotone(row + 1, count, words);
  }

  ghost predicate SameOutside<W>(before: seq<W>, after: seq<W>, lo: nat, hi: nat) {
    |before| == |after| && forall i :: 0 <= i < |after| && !(lo <= i < hi) ==> after[i] == before[i]
  }

  lemma OtherRowKept<W>(before: seq<W>, after: seq<W>, words: nat, written: nat, row: nat, x: seq<W>)
    requires SameOutside(before, after, words * written, words * written + words)
    requires row < written && Holds(before, words, row, x)
    ensures Holds(after, words, row, x)
  {
    RowFits(words, row, written);
  }

  lemma RowAppended<W>(before: seq<W>, after: seq<W>, words: nat, rows: seq<seq<W>>, x: seq<W>)
    requires SameOutside(before, after, words * |rows|, words * |rows| + words)
    requires HoldsAll(before, words, rows) && Holds(after, words, |rows|, x)
    ensures HoldsAll(after, words, rows + [x])
  {
    forall i | 0 <= i < |rows| + 1
      ensures Holds(after, words, i, (rows + [x])[i])
    {
      if i < |rows| {
        OtherRowKept(before, after, words, |rows|, i, rows[i]);
      }
    }
  }

  method StoreRow<W>(block: array<W>, table: array<W>, start: nat)
    requires block != table && start + block.Length <= table.Length
    modifies table
    ensures table[start..start + block.Length] == block[..]
    ensures SameOutside(old(table[..]), table[..], start, start + block.Length)
  {
    for i := 0 to block.Length
      invariant forall k :: 0 <= k < i ==> table[start + k] == block[k]
      invariant forall k :: 0 <= k < table.Length && !(start <= k < start + block.Length) ==> table[k] == old(table[k])
    {
      table[start + i] := block[i];
    }
  }

  method LoadRow<W>(table: array<W>, start: nat, block: array<W>)
    requires block != table && start + block.Length <= table.Length
    modifies block
    ensures block[..] == table[start..start + block.Length]
  {
    for i := 0 to block.Length
      invariant forall k :: 0 <= k < i ==> block[k] == table[start + k]
    {
      block[i] := table[start + i];
    }
  }

  method XorInPlace<W>(ops: WordOps<W>, block: array<W>, other: array<W>)
    requires block != other && block.Length == other.Length
    modifies block
    ensures block[..] == Combined(ops, old(block[..]), other[..])
  {
    ghost var before := block[..];
    for i := 0 to block.Length
      invariant forall k :: 0 <= k < i ==> block[k] == ops.xor(before[k], other[k])
      invariant forall k :: i <= k < block.Length ==> block[k] == before[k]
    {
      block[i] := ops.xor(block[i], other[i]);
    }
  }

  // ----- the first loop: fill the table -----

  /** How many checkpoints are due before step `index`. */
  function Due(index: nat, stride: nat): nat
    requires stride > 0
  {
    (index + stride - 1) / stride
  }

  lemma DueStep(index: nat, stride: nat)
    requires stride > 0
    ensures index % stride == 0 ==> Due(index, stride) == index / stride && Due(index + 1, stride) == index / stride + 1
    ensures index % stride == 0 ==> (index / stride) * stride == index
    ensures index % stride != 0 ==> Due(index + 1, stride) == Due(index, stride)
  {
    var q, m := index / stride, index % stride;
    assert index == q * stride + m;
    QuotientIs(index + stride, stride, q + 1, m);
    if m == 0 {
      QuotientIs(index + stride - 1, stride, q, stride - 1);
    } else {
      QuotientIs(index + stride - 1, stride, q + 1, m - 1);
    }
  }

  lemma QuotientIs(x: nat, d: nat, q: nat, m: nat)
    requires d > 0 && x == q * d + m && m < d
    ensures x / d == q
  {
    if x / d > q {
      TimesMonotone(q + 1, x / d, d);
    } else if x / d < q {
      TimesMonotone(x / d + 1, q, d);
    }
  }

  /** After `index` steps: the block is V[index], and the due checkpoints are in the table. */
  ghost predicate Filled<W>(ops: WordOps<W>, words: nat, r: nat, x: seq<W>, stride: nat, index: nat,
    block: seq<W>, table: seq<W>)
    requires stride > 0
  {
    block == Iterate(Mixer(ops, r), x, index)
    && HoldsAll(table, words, Checkpoints(Mixer(ops, r), x, stride, Due(index, stride)))
  }

  method StoreCheckpoint<W>(words: nat, ghost count: nat, row: nat, ghost rows: seq<seq<W>>, block: array<W>,
    table: array<W>)
    requires block != table && block.Length == words && table.Length == words * count && row == |rows| < count
    requires HoldsAll(table[..], words, rows)
    modifies table
    ensures HoldsAll(table[..], words, rows + [block[..]])
  {
    RowFits(words, row, count);
    ghost var before := table[..];
    StoreRow(block, table, words * row);
    RowAppended(before, table[..], words, rows, block[..]);
  }

  method Checkpoint<W>(ops: WordOps<W>, words: nat, r: nat, ghost x: seq<W>, ghost count: nat, stride: nat,
    index: nat, block: array<W>, table: array<W>)
    requires words == 32 * r && stride > 0 && Row(index, stride) < count && block != table
    requires block.Length == words && table.Length == words * count
    requires Filled(ops, words, r, x, stride, index, block[..], table[..])
    modifies table
    ensures HoldsAll(table[..], words, Checkpoints(Mixer(ops, r), x, stride, Due(index + 1, stride)))
  {
    DueStep(index, stride);
    if index % stride == 0 {
      ghost var rows := Checkpoints(Mixer(ops, r), x, stride, index / stride);
      StoreCheckpoint(words, count, index / stride, rows, block, table);
    }
  }

  lemma DueAtEnd(n: nat, stride: nat, count: nat)
    requires stride > 0 && n == count * stride
    ensures Due(n, stride) == count && Due(0, stride) == 0
  {
    QuotientIs(n + stride - 1, stride, count, stride - 1);
    QuotientIs(stride - 1, stride, 0, stride - 1);
  }

  /** Every step below N has its checkpoint in the table. */
  ghost predicate Covers(n: nat, stride: nat, count: nat)
    requires stride > 0
  {
    Due(n, stride) == count && Due(0, stride) == 0 && forall index: nat :: index < n ==> Row(index, stride) < count
  }

  function Row(index: nat, stride: nat): nat
    requires stride > 0
  {
    index / stride
  }

  lemma DivisorCovers(n: nat, stride: nat)
    requires stride > 0 && n % stride == 0
    ensures Covers(n, stride, n / stride)
  {
    DueAtEnd(n, stride, n / stride);
    forall index: nat | index < n
      ensures Row(index, stride) < n / stride
    {
      QuotientInRange(index, stride, n / stride);
    }
  }

  method Fill<W(0)>(ops: WordOps<W>, words: nat, r: nat, n: nat, stride: nat, ghost count: nat,
    block: array<W>, table: array<W>, scratch: array<W>)
    returns (ghost calls: nat)
    requires words == 32 * r && r > 0 && stride > 0 && Covers(n, stride, count)
    requires block.Length == scratch.Length == words && table.Length == words * count
    requires block != table && block != scratch && table != scratch
    modifies block, table, scratch
    ensures block[..] == Iterate(Mixer(ops, r), old(block[..]), n)
    ensures HoldsAll(table[..], words, Checkpoints(Mixer(ops, r), old(block[..]), stride, count))
    ensures calls == n
  {
    ghost var x := block[..];
    calls := 0;
    for index := 0 to n
      invariant Filled(ops, words, r, x, stride, index, block[..], table[..])
      invariant calls == index
    {
      assert Row(index, stride) < count;
      Checkpoint(ops, words, r, x, count, stride, index, block, table);
      BlockMixInPlace(ops, r, block, scratch);
      calls := calls + 1;
    }
  }

  // ----- the second loop: recompute and mix -----

  /** A dropped entry, recomputed from the checkpoint before it. */
  method Rebuild<W(0)>(ops: WordOps<W>, r: nat, stride: nat, index: nat, ghost rows: seq<seq<W>>,
    table: array<W>, rebuilt: array<W>, scratch: array<W>)
    returns (ghost calls: nat)
    requires r > 0 && stride > 0 && index / stride < |rows|
    requires rebuilt.Length == scratch.Length == 32 * r
    requires rebuilt != table && rebuilt != scratch && table != scratch
    requires HoldsAll(table[..], 32 * r, rows)
    modifies rebuilt, scratch
    ensures rebuilt[..] == Recomputed(Mixer(ops, r), rows, stride, index)
    ensures calls < stride
  {
    assert Holds(table[..], 32 * r, index / stride, rows[index / stride]);
    LoadRow(table, index / stride * (32 * r), rebuilt);
    calls := 0;
    ghost var start := rows[index / stride];
    for k := 0 to index % stride
      invariant rebuilt[..] == Iterate(Mixer(ops, r), start, k)
      invariant calls == k
    {
      BlockMixInPlace(ops, r, rebuilt, scratch);
      calls := calls + 1;
    }
  }

  /** The mask on the low word of every block stays within the table. */
  ghost predicate InReach<W(!new)>(mask: W -> nat, rows: nat, stride: nat)
    requires stride > 0
  {
    forall w :: mask(w) / stride < rows
  }

  function Entry<W>(ops: WordOps<W>, mask: W -> nat, r: nat, rows: seq<seq<W>>, stride: nat): seq<W> -> seq<W>
    requires stride > 0
  {
    SparseEntry(Mixer(ops, r), Picker(mask), rows, stride)
  }

  method MixIn<W(0)>(ops: WordOps<W>, r: nat, block: array<W>, other: array<W>, scratch: array<W>)
    requires r > 0 && block.Length == other.Length == scratch.Length == 32 * r
    requires block != other && block != scratch
    modifies block, scratch
    ensures block[..] == Mixed(ops, r, Combined(ops, old(block[..]), old(other[..])))
  {
    XorInPlace(ops, block, other);
    BlockMixInPlace(ops, r, block, scratch);
  }

  function Next<W>(ops: WordOps<W>, mask: W -> nat, r: nat, rows: seq<seq<W>>, stride: nat, block: seq<W>): seq<W>
    requires stride > 0
  {
    Mixed(ops, r, Combined(ops, block, Entry(ops, mask, r, rows, stride)(block)))
  }

  /** One pass of the second loop. */
  method Round<W(0, !new)>(ops: WordOps<W>, mask: W -> nat, r: nat, stride: nat, ghost rows: seq<seq<W>>,
    block: array<W>, table: array<W>, rebuilt: array<W>, scratch: array<W>)
    returns (ghost calls: nat)
    requires r > 0 && stride > 0 && InReach(mask, |rows|, stride)
    requires block.Length == rebuilt.Length == scratch.Length == 32 * r
    requires block != table && block != rebuilt && block != scratch && rebuilt != table && rebuilt != scratch
    requires table != scratch
    requires HoldsAll(table[..], 32 * r, rows)
    modifies block, rebuilt, scratch
    ensures block[..] == Next(ops, mask, r, rows, stride, old(block[..]))
    ensures calls <= stride
  {
    ghost var before := block[..];
    var index := mask(block[32 * r - 16]);
    assert index == Picker(mask)(before);
    calls := Rebuild(ops, r, stride, index, rows, table, rebuilt, scratch);
    assert rebuilt[..] == Entry(ops, mask, r, rows, stride)(before);
    MixIn(ops, r, block, rebuilt, scratch);
    calls := calls + 1;
  }

  /** The second loop after some passes. */
  function SparseRounds<W>(ops: WordOps<W>, mask: W -> nat, r: nat, rows: seq<seq<W>>, stride: nat, x: seq<W>,
    round: nat): seq<W>
    requires stride > 0
  {
    Rounds(Mixer(ops, r), Combiner(ops), Entry(ops, mask, r, rows, stride), x, round)
  }

  /** One pass on words is one pass on blocks. */
  lemma NextIsRound<W>(ops: WordOps<W>, mask: W -> nat, r: nat, rows: seq<seq<W>>, stride: nat, x: seq<W>, round: nat)
    requires stride > 0
    ensures Next(ops, mask, r, rows, stride, SparseRounds(ops, mask, r, rows, stride, x, round))
      == SparseRounds(ops, mask, r, rows, stride, x, round + 1)
  {
    RoundsStep(Mixer(ops, r), Combiner(ops), Entry(ops, mask, r, rows, stride), x, round);
  }

  /** The sum of `rounds` equal costs. */
  function Repeated(cost: nat, rounds: nat): nat {
    if rounds == 0 then 0 else Repeated(cost, rounds - 1) + cost
  }

  lemma {:induction false} RepeatedIsProduct(cost: nat, rounds: nat)
    ensures Repeated(cost, rounds) == rounds * cost
  {
    if rounds > 0 {
      RepeatedIsProduct(cost, rounds - 1);
    }
  }

  lemma {:induction false} RepeatedSplits(cost: nat, rounds: nat)
    ensures Repeated(1 + cost, rounds) == rounds + Repeated(cost, rounds)
  {
    if rounds > 0 {
      RepeatedSplits(cost, rounds - 1);
    }
  }

  method AllRounds<W(0, !new)>(ops: WordOps<W>, mask: W -> nat, r: nat, n: nat, stride: nat, ghost rows: seq<seq<W>>,
    block: array<W>, table: array<W>, rebuilt: array<W>, scratch: array<W>)
    returns (ghost calls: nat)
    requires r > 0 && stride > 0 && InReach(mask, |rows|, stride)
    requires block.Length == rebuilt.Length == scratch.Length == 32 * r
    requires block != table && block != rebuilt && block != scratch && rebuilt != table && rebuilt != scratch
    requires table != scratch
    requires HoldsAll(table[..], 32 * r, rows)
    modifies block, rebuilt, scratch
    ensures block[..] == SparseRounds(ops, mask, r, rows, stride, old(block[..]), n)
    ensures calls <= Repeated(stride, n)
  {
    ghost var held, start := table[..], block[..];
    calls := 0;
    for round := 0 to n
      invariant table[..] == held
      invariant block[..] == SparseRounds(ops, mask, r, rows, stride, start, round)
      invariant calls <= Repeated(stride, round)
    {
      assert HoldsAll(table[..], 32 * r, rows);
      NextIsRound(ops, mask, r, rows, stride, start, round);
      ghost var more := Round(ops, mask, r, stride, rows, block, table, rebuilt, scratch);
      calls := calls + more;
    }
  }

  /** The mask on a block's low word is Integerify modulo N. */
  ghost predicate PicksIntegerify<W(!new)>(mask: W -> nat, integerify: seq<W> -> nat, n: nat)
    requires n > 0
  {
    (forall w :: mask(w) < n) && forall y :: Picker(mask)(y) == integerify(y) % n
  }

  lemma MaskInReach<W(!new)>(mask: W -> nat, n: nat, stride: nat)
    requires stride > 0 && n % stride == 0 && forall w :: mask(w) < n
    ensures InReach(mask, n / stride, stride)
  {
    forall w
      ensures mask(w) / stride < n / stride
    {
      QuotientInRange(mask(w), stride, n / stride);
    }
  }

  method BothLoops<W(0, !new)>(ops: WordOps<W>, mask: W -> nat, r: nat, n: nat, stride: nat, count: nat,
    block: array<W>)
    returns (ghost calls: nat, ghost stored: nat)
    requires r > 0 && stride > 0 && Covers(n, stride, count) && InReach(mask, count, stride)
    requires block.Length == 32 * r
    modifies block
    ensures block[..] == SparseRounds(ops, mask, r, Checkpoints(Mixer(ops, r), old(block[..]), stride, count), stride,
      Iterate(Mixer(ops, r), old(block[..]), n), n)
    ensures stored == 32 * r * count && calls <= n + Repeated(stride, n)
  {
    ghost var rows := Checkpoints(Mixer(ops, r), block[..], stride, count);
    var words := 32 * r;
    var table := new W[words * count];
    var rebuilt, scratch := new W[words], new W[words];
    stored := table.Length;
    calls := Fill(ops, words, r, n, stride, count, block, table, scratch);
    ghost var more := AllRounds(ops, mask, r, n, stride, rows, block, table, rebuilt, scratch);
    calls := calls + more;
  }

  /**
   * The scrypt core: it equals dense scryptROMix whenever the mask picks Integerify modulo N, with a
   * table of N / stride blocks and at most N * (1 + stride) calls of BlockMix.
   */
  method RoMixInPlace<W(0, !new)>(ops: WordOps<W>, mask: W -> nat, ghost integerify: seq<W> -> nat, r: nat,
    n: nat, stride: nat, block: array<W>)
    returns (ghost calls: nat, ghost stored: nat)
    requires r > 0 && n > 0 && stride > 0 && n % stride == 0 && PicksIntegerify(mask, integerify, n)
    requires block.Length == 32 * r
    modifies block
    ensures block[..] == Dense(Mixer(ops, r), Combiner(ops), integerify, old(block[..]), n)
    ensures stored == 32 * r * (n / stride)
    ensures calls <= Repeated(1 + stride, n)
  {
    DivisorCovers(n, stride);
    MaskInReach(mask, n, stride);
    SparseRoundsAreDense(ops, mask, integerify, r, block[..], stride, n);
    calls, stored := BothLoops(ops, mask, r, n, stride, n / stride, block);
    RepeatedSplits(stride, n);
  }

  lemma SparseRoundsAreDense<W(!new)>(ops: WordOps<W>, mask: W -> nat, integerify: seq<W> -> nat, r: nat,
    x: seq<W>, stride: nat, n: nat)
    requires n > 0 && stride > 0 && n % stride == 0 && PicksIntegerify(mask, integerify, n)
    ensures SparseRounds(ops, mask, r, Checkpoints(Mixer(ops, r), x, stride, n / stride), stride,
      Iterate(Mixer(ops, r), x, n), n)
      == Dense(Mixer(ops, r), Combiner(ops), integerify, x, n)
  {
    CheckpointedIsDense(Mixer(ops, r), Combiner(ops), integerify, Picker(mask), x, stride, n);
  }
}
