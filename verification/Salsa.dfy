/** Salsa20/8 and scryptBlockMix (sections 3 and 4 of RFC 7914) over arrays, for any word operations. */
module Salsa {

  /** `step(t, a, b, k)` is `t ^ rotate(a + b, k)`. */
  datatype WordOps<!W> = WordOps(
    xor: (W, W) -> W,
    add: (W, W) -> W,
    step: (W, W, W, nat) -> W)

  // ----- the core -----

  /** One quarter round on its four words. */
  function Quarter<W>(ops: WordOps<W>, a: W, b: W, c: W, d: W): (W, W, W, W) {
    var b' := ops.step(b, a, d, 7);
    var c' := ops.step(c, b', a, 9);
    var d' := ops.step(d, c', b', 13);
    var a' := ops.step(a, d', c', 18);
    (a', b', c', d')
  }

  /** The four columns of the 4x4 matrix, each starting on the diagonal. */
  function ColumnRound<W>(ops: WordOps<W>, x: seq<W>): (z: seq<W>)
    requires |x| == 16
    ensures |z| == 16
  {
    var (z0, z4, z8, z12) := Quarter(ops, x[0], x[4], x[8], x[12]);
    var (z5, z9, z13, z1) := Quarter(ops, x[5], x[9], x[13], x[1]);
    var (z10, z14, z2, z6) := Quarter(ops, x[10], x[14], x[2], x[6]);
    var (z15, z3, z7, z11) := Quarter(ops, x[15], x[3], x[7], x[11]);
    [z0, z1, z2, z3, z4, z5, z6, z7, z8, z9, z10, z11, z12, z13, z14, z15]
  }

  function Transpose<W>(x: seq<W>): (z: seq<W>)
    requires |x| == 16
    ensures |z| == 16
  {
    [x[0], x[4], x[8], x[12], x[1], x[5], x[9], x[13], x[2], x[6], x[10], x[14], x[3], x[7], x[11], x[15]]
  }

  /** The four rows: the column round of the transposed matrix. */
  function RowRound<W>(ops: WordOps<W>, x: seq<W>): (z: seq<W>)
    requires |x| == 16
    ensures |z| == 16
  {
    Transpose(ColumnRound(ops, Transpose(x)))
  }

  function DoubleRounds<W>(ops: WordOps<W>, x: seq<W>, count: nat): (z: seq<W>)
    requires |x| == 16
    ensures |z| == 16
  {
    if count == 0 then x else RowRound(ops, ColumnRound(ops, DoubleRounds(ops, x, count - 1)))
  }

  function AddWords<W>(ops: WordOps<W>, x: seq<W>, y: seq<W>): (z: seq<W>)
    requires |x| == |y|
    ensures |z| == |x|
  {
    seq(|x|, i requires 0 <= i < |x| => ops.add(x[i], y[i]))
  }

  function XorWords<W>(ops: WordOps<W>, x: seq<W>, y: seq<W>): (z: seq<W>)
    requires |x| == |y|
    ensures |z| == |x|
  {
    seq(|x|, i requires 0 <= i < |x| => ops.xor(x[i], y[i]))
  }

  /** Eight rounds and the feed-forward. */
  function Salsa8<W>(ops: WordOps<W>, x: seq<W>): (z: seq<W>)
    requires |x| == 16
    ensures |z| == 16
  {
    AddWords(ops, x, DoubleRounds(ops, x, 4))
  }

  method QuarterRound<W>(ops: WordOps<W>, state: array<W>, a: nat, b: nat, c: nat, d: nat)
    requires a < state.Length && b < state.Length && c < state.Length && d < state.Length
    requires a != b && a != c && a != d && b != c && b != d && c != d
    modifies state
    ensures var (a', b', c', d') := Quarter(ops, old(state[a]), old(state[b]), old(state[c]), old(state[d]));
      state[a] == a' && state[b] == b' && state[c] == c' && state[d] == d'
    ensures forall i :: 0 <= i < state.Length && i != a && i != b && i != c && i != d ==> state[i] == old(state[i])
  {
    state[b] := ops.step(state[b], state[a], state[d], 7);
    state[c] := ops.step(state[c], state[b], state[a], 9);
    state[d] := ops.step(state[d], state[c], state[b], 13);
    state[a] := ops.step(state[a], state[d], state[c], 18);
  }

  method Columns<W>(ops: WordOps<W>, state: array<W>)
    requires state.Length == 16
    modifies state
    ensures state[..] == ColumnRound(ops, old(state[..]))
  {
    QuarterRound(ops, state, 0, 4, 8, 12);
    QuarterRound(ops, state, 5, 9, 13, 1);
    QuarterRound(ops, state, 10, 14, 2, 6);
    QuarterRound(ops, state, 15, 3, 7, 11);
  }

  method Rows<W>(ops: WordOps<W>, state: array<W>)
    requires state.Length == 16
    modifies state
    ensures state[..] == RowRound(ops, old(state[..]))
  {
    QuarterRound(ops, state, 0, 1, 2, 3);
    QuarterRound(ops, state, 5, 6, 7, 4);
    QuarterRound(ops, state, 10, 11, 8, 9);
    QuarterRound(ops, state, 15, 12, 13, 14);
  }

  /** `salsa8`: four double rounds on a copy, then the words are added back. */
  method Salsa8InPlace<W(0)>(ops: WordOps<W>, block: array<W>)
    requires block.Length == 16
    modifies block
    ensures block[..] == Salsa8(ops, old(block[..]))
  {
    ghost var x := block[..];
    var state := new W[16](i requires 0 <= i < 16 reads block => block[i]);
    assert state[..] == x;
    for round := 0 to 4
      invariant block[..] == x
      invariant state[..] == DoubleRounds(ops, x, round)
    {
      Columns(ops, state);
      Rows(ops, state);
    }
    for i := 0 to 16
      invariant state[..] == DoubleRounds(ops, x, 4)
      invariant forall k :: 0 <= k < i ==> block[k] == ops.add(x[k], state[k])
      invariant forall k :: i <= k < 16 ==> block[k] == x[k]
    {
      block[i] := ops.add(block[i], state[i]);
    }
  }

  // ----- BlockMix -----

  function Chunk<W>(block: seq<W>, index: nat): (c: seq<W>)
    requires 16 * index + 16 <= |block|
    ensures |c| == 16
  {
    block[16 * index..16 * index + 16]
  }

  /** X before the next step: the last result, or the block's last chunk at the start. */
  function Current<W>(r: nat, block: seq<W>, results: seq<seq<W>>): (x: seq<W>)
    requires r > 0 && |block| == 32 * r && AllChunks(results)
    ensures |x| == 16
  {
    if results == [] then Chunk(block, 2 * r - 1) else results[|results| - 1]
  }

  /** Y_0 to Y_{count-1}: each step mixes the next chunk of the block into X. */
  function Results<W>(ops: WordOps<W>, r: nat, block: seq<W>, count: nat): (y: seq<seq<W>>)
    requires r > 0 && |block| == 32 * r && count <= 2 * r
    ensures |y| == count && AllChunks(y)
  {
    if count == 0 then []
    else
      var before := Results(ops, r, block, count - 1);
      before + [Salsa8(ops, XorWords(ops, Current(r, block, before), Chunk(block, count - 1)))]
  }

  predicate AllChunks<W>(results: seq<seq<W>>) {
    forall i :: 0 <= i < |results| ==> |results[i]| == 16
  }

  /** Which step produced an output chunk: the even ones come first, then the odd ones. */
  function Source(r: nat, index: nat): nat {
    if index < r then 2 * index else 2 * (index - r) + 1
  }

  /** The results in the standard's order. */
  function Interleaved<W>(r: nat, results: seq<seq<W>>): (z: seq<W>)
    requires |results| == 2 * r && AllChunks(results)
    ensures |z| == 32 * r
  {
    seq(32 * r, i requires 0 <= i < 32 * r => results[Source(r, i / 16)][i % 16])
  }

  function BlockMix<W>(ops: WordOps<W>, r: nat, block: seq<W>): (z: seq<W>)
    requires r > 0 && |block| == 32 * r
    ensures |z| == 32 * r
  {
    Interleaved(r, Results(ops, r, block, 2 * r))
  }

  /** Where a step's result goes; the inverse of Source. */
  function Target(r: nat, index: nat): nat {
    index / 2 + if index % 2 == 0 then 0 else r
  }

  lemma TargetInvertsSource(r: nat, index: nat)
    requires index < 2 * r
    ensures Target(r, index) < 2 * r && Source(r, Target(r, index)) == index
    ensures Source(r, index) < 2 * r && Target(r, Source(r, index)) == index
  {
  }

  method Absorb<W>(ops: WordOps<W>, state: array<W>, block: array<W>, index: nat)
    requires state.Length == 16 && 16 * index + 16 <= block.Length && state != block
    modifies state
    ensures state[..] == XorWords(ops, old(state[..]), Chunk(block[..], index))
  {
    ghost var before := state[..];
    for i := 0 to 16
      invariant forall k :: 0 <= k < i ==> state[k] == ops.xor(before[k], block[16 * index + k])
      invariant forall k :: i <= k < 16 ==> state[k] == before[k]
    {
      state[i] := ops.xor(state[i], block[16 * index + i]);
    }
  }

  method CopyChunk<W>(state: array<W>, scratch: array<W>, index: nat)
    requires state.Length == 16 && 16 * index + 16 <= scratch.Length && state != scratch
    modifies scratch
    ensures Chunk(scratch[..], index) == state[..]
    ensures KeptOutside(old(scratch[..]), scratch[..], index)
  {
    for i := 0 to 16
      invariant forall k :: 0 <= k < i ==> scratch[16 * index + k] == state[k]
      invariant forall k :: 0 <= k < scratch.Length && !(16 * index <= k < 16 * index + 16) ==>
        scratch[k] == old(scratch[k])
    {
      scratch[16 * index + i] := state[i];
    }
  }

  /** The results so far are where they belong, and the state is the last of them. */
  ghost predicate Mixing<W>(r: nat, b: seq<W>, results: seq<seq<W>>, state: seq<W>, scratch: seq<W>)
    requires r > 0 && |b| == |scratch| == 32 * r
  {
    AllChunks(results) && state == Current(r, b, results) && Stored(r, results, scratch)
  }

  /** One step of the chain: `state` moves on and its chunk lands in `scratch`, the earlier ones staying. */
  method MixChunk<W(0)>(ops: WordOps<W>, r: nat, block: array<W>, state: array<W>, scratch: array<W>, index: nat)
    requires r > 0 && block.Length == scratch.Length == 32 * r && state.Length == 16 && index < 2 * r
    requires block != scratch && block != state && scratch != state
    requires Mixing(r, block[..], Results(ops, r, block[..], index), state[..], scratch[..])
    modifies state, scratch
    ensures Mixing(r, block[..], Results(ops, r, block[..], index + 1), state[..], scratch[..])
  {
    Absorb(ops, state, block, index);
    Salsa8InPlace(ops, state);
    TargetInvertsSource(r, index);
    ghost var before := scratch[..];
    CopyChunk(state, scratch, Target(r, index));
    KeptWhileStoring(r, Results(ops, r, block[..], index), state[..], before, scratch[..]);
  }

  method CopyAll<W>(block: array<W>, scratch: array<W>)
    requires block.Length == scratch.Length && block != scratch
    modifies block
    ensures block[..] == scratch[..]
  {
    for i := 0 to block.Length
      invariant forall k :: 0 <= k < i ==> block[k] == scratch[k]
    {
      block[i] := scratch[i];
    }
  }

  method LoadLast<W>(r: nat, block: array<W>, state: array<W>)
    requires r > 0 && block.Length == 32 * r && state.Length == 16 && block != state
    modifies state
    ensures state[..] == Chunk(block[..], 2 * r - 1)
  {
    for i := 0 to 16
      invariant forall k :: 0 <= k < i ==> state[k] == block[32 * r - 16 + k]
    {
      state[i] := block[32 * r - 16 + i];
    }
  }

  /** The chain over the whole block, every result stored in `scratch`. */
  method MixAll<W(0)>(ops: WordOps<W>, r: nat, block: array<W>, state: array<W>, scratch: array<W>)
    requires r > 0 && block.Length == scratch.Length == 32 * r && state.Length == 16
    requires block != scratch && block != state && scratch != state
    modifies state, scratch
    ensures Stored(r, Results(ops, r, block[..], 2 * r), scratch[..])
  {
    LoadLast(r, block, state);
    ghost var b := block[..];
    for index := 0 to 2 * r
      invariant block[..] == b && Mixing(r, b, Results(ops, r, b, index), state[..], scratch[..])
    {
      assert Mixing(r, b, Results(ops, r, b, index), state[..], scratch[..]);
      MixChunk(ops, r, block, state, scratch, index);
    }
  }

  /** `block_mix`: the chain runs in a 16-word state and each result is scattered into `scratch`. */
  method BlockMixInPlace<W(0)>(ops: WordOps<W>, r: nat, block: array<W>, scratch: array<W>)
    requires r > 0 && block.Length == scratch.Length == 32 * r && block != scratch
    modifies block, scratch
    ensures block[..] == BlockMix(ops, r, old(block[..]))
  {
    var state := new W[16];
    MixAll(ops, r, block, state, scratch);
    StoredIsInterleaved(r, Results(ops, r, block[..], 2 * r), scratch[..]);
    CopyAll(block, scratch);
  }

  /** Every result is in the chunk the standard gives it. */
  ghost predicate Stored<W>(r: nat, results: seq<seq<W>>, scratch: seq<W>)
    requires |scratch| == 32 * r
  {
    forall d :: 0 <= d < 2 * r && Source(r, d) < |results| ==> Chunk(scratch, d) == results[Source(r, d)]
  }

  ghost predicate KeptOutside<W>(before: seq<W>, after: seq<W>, chunk: nat) {
    |before| == |after|
    && forall i :: 0 <= i < |after| && !(16 * chunk <= i < 16 * chunk + 16) ==> after[i] == before[i]
  }

  lemma OtherChunkKept<W>(before: seq<W>, after: seq<W>, written: nat, other: nat)
    requires written != other && 16 * other + 16 <= |before| && KeptOutside(before, after, written)
    ensures Chunk(after, other) == Chunk(before, other)
  {
  }

  lemma KeptWhileStoring<W>(r: nat, results: seq<seq<W>>, next: seq<W>, before: seq<W>, after: seq<W>)
    requires |before| == |after| == 32 * r && |results| < 2 * r && Target(r, |results|) < 2 * r
    requires Stored(r, results, before)
    requires Chunk(after, Target(r, |results|)) == next
    requires KeptOutside(before, after, Target(r, |results|))
    ensures Stored(r, results + [next], after)
  {
    var index := |results|;
    forall d | 0 <= d < 2 * r && Source(r, d) < index + 1
      ensures Chunk(after, d) == (results + [next])[Source(r, d)]
    {
      TargetInvertsSource(r, d);
      TargetInvertsSource(r, index);
      if d != Target(r, index) {
        OtherChunkKept(before, after, Target(r, index), d);
      }
    }
  }

  lemma StoredIsInterleaved<W>(r: nat, results: seq<seq<W>>, scratch: seq<W>)
    requires |scratch| == 32 * r && |results| == 2 * r && AllChunks(results)
    requires Stored(r, results, scratch)
    ensures scratch == Interleaved(r, results)
  {
    forall k | 0 <= k < 32 * r
      ensures scratch[k] == Interleaved(r, results)[k]
    {
      TargetInvertsSource(r, k / 16);
      assert Chunk(scratch, k / 16) == results[Source(r, k / 16)];
      assert Chunk(scratch, k / 16)[k % 16] == scratch[k];
    }
  }
}
