/** scryptROMix of section 5 of RFC 7914, dense and with checkpoints, over any block type and mixing function. */
module RoMix {

  function Iterate<T>(mix: T -> T, x: T, k: nat): T {
    if k == 0 then x else mix(Iterate(mix, x, k - 1))
  }

  lemma {:induction false} IterateAdd<T>(mix: T -> T, x: T, j: nat, k: nat)
    ensures Iterate(mix, Iterate(mix, x, j), k) == Iterate(mix, x, j + k)
    decreases k
  {
    if k > 0 {
      IterateAdd(mix, x, j, k - 1);
    }
  }

  // ----- dense: steps 2 and 3 of the standard -----

  /** Step 2: V[i] is the block before the i-th mixing. */
  function Table<T>(mix: T -> T, x: T, n: nat): (v: seq<T>)
    ensures |v| == n
  {
    if n == 0 then [] else Table(mix, x, n - 1) + [Iterate(mix, x, n - 1)]
  }

  /** `rounds` times, X = mix(X xor entry(X)). */
  function Rounds<T>(mix: T -> T, xor: (T, T) -> T, entry: T -> T, x: T, rounds: nat): T {
    if rounds == 0 then x
    else
      var before := Rounds(mix, xor, entry, x, rounds - 1);
      mix(xor(before, entry(before)))
  }

  lemma RoundsStep<T>(mix: T -> T, xor: (T, T) -> T, entry: T -> T, x: T, rounds: nat)
    ensures var before := Rounds(mix, xor, entry, x, rounds);
      Rounds(mix, xor, entry, x, rounds + 1) == mix(xor(before, entry(before)))
  {
  }

  /** Step 3 takes V[Integerify(X) mod N]. */
  function DenseEntry<T>(mix: T -> T, integerify: T -> nat, x: T, n: nat): T -> T
    requires n > 0
  {
    y => Table(mix, x, n)[integerify(y) % n]
  }

  function Dense<T>(mix: T -> T, xor: (T, T) -> T, integerify: T -> nat, x: T, n: nat): T
    requires n > 0
  {
    Rounds(mix, xor, DenseEntry(mix, integerify, x, n), Iterate(mix, x, n), n)
  }

  // ----- with checkpoints -----

  /** Every `stride`-th entry of the table. */
  function Checkpoints<T>(mix: T -> T, x: T, stride: nat, count: nat): (c: seq<T>)
    ensures |c| == count
  {
    if count == 0 then [] else Checkpoints(mix, x, stride, count - 1) + [Iterate(mix, x, (count - 1) * stride)]
  }

  function Recomputed<T>(mix: T -> T, checkpoints: seq<T>, stride: nat, index: nat): T
    requires stride > 0 && index / stride < |checkpoints|
  {
    Iterate(mix, checkpoints[index / stride], index % stride)
  }

  /** The entry rebuilt from the checkpoint before it. */
  function SparseEntry<T>(mix: T -> T, select: T -> nat, checkpoints: seq<T>, stride: nat): T -> T
    requires stride > 0
  {
    y => if select(y) / stride < |checkpoints| then Recomputed(mix, checkpoints, stride, select(y)) else y
  }

  lemma {:induction false} TableAt<T>(mix: T -> T, x: T, n: nat, i: nat)
    requires i < n
    ensures Table(mix, x, n)[i] == Iterate(mix, x, i)
    decreases n
  {
    if i < n - 1 {
      TableAt(mix, x, n - 1, i);
    }
  }

  lemma {:induction false} CheckpointAt<T>(mix: T -> T, x: T, stride: nat, count: nat, i: nat)
    requires i < count
    ensures Checkpoints(mix, x, stride, count)[i] == Iterate(mix, x, i * stride)
    decreases count
  {
    if i < count - 1 {
      CheckpointAt(mix, x, stride, count - 1, i);
    }
  }

  lemma QuotientInRange(index: nat, stride: nat, count: nat)
    requires stride > 0 && index < count * stride
    ensures index / stride < count
    ensures (index / stride) * stride + index % stride == index
  {
    if index / stride >= count {
      TimesMonotone(count, index / stride, stride);
    }
  }

  lemma TimesMonotone(small: nat, large: nat, factor: nat)
    requires small <= large
    ensures small * factor <= large * factor
  {
  }

  /** Recomputing from the nearest checkpoint gives the dropped table entry. */
  lemma RecomputedIsTableEntry<T>(mix: T -> T, x: T, stride: nat, count: nat, index: nat)
    requires stride > 0 && index < count * stride
    ensures index / stride < count
    ensures Recomputed(mix, Checkpoints(mix, x, stride, count), stride, index) == Table(mix, x, count * stride)[index]
  {
    QuotientInRange(index, stride, count);
    CheckpointAt(mix, x, stride, count, index / stride);
    IterateAdd(mix, x, (index / stride) * stride, index % stride);
    TableAt(mix, x, count * stride, index);
  }

  lemma {:induction false} RoundsAgree<T(!new)>(mix: T -> T, xor: (T, T) -> T, entry: T -> T, other: T -> T,
    x: T, rounds: nat)
    requires forall y :: entry(y) == other(y)
    ensures Rounds(mix, xor, entry, x, rounds) == Rounds(mix, xor, other, x, rounds)
  {
    if rounds > 0 {
      RoundsAgree(mix, xor, entry, other, x, rounds - 1);
    }
  }

  /** The selected entry is in reach of a checkpoint and is rebuilt exactly. */
  lemma SparseEntryIsDense<T>(mix: T -> T, integerify: T -> nat, select: T -> nat, x: T, stride: nat, n: nat, y: T)
    requires n > 0 && stride > 0 && n % stride == 0 && select(y) == integerify(y) % n
    ensures select(y) / stride < n / stride
    ensures SparseEntry(mix, select, Checkpoints(mix, x, stride, n / stride), stride)(y) ==
      DenseEntry(mix, integerify, x, n)(y)
  {
    assert (n / stride) * stride == n;
    RecomputedIsTableEntry(mix, x, stride, n / stride, select(y));
  }

  /**
   * Keeping only every `stride`-th block and recomputing the rest gives dense scryptROMix, for any
   * mixing function, block, combination and selection that agrees with Integerify modulo N.
   */
  lemma CheckpointedIsDense<T(!new)>(mix: T -> T, xor: (T, T) -> T, integerify: T -> nat, select: T -> nat,
    x: T, stride: nat, n: nat)
    requires n > 0 && stride > 0 && n % stride == 0
    requires forall y :: select(y) == integerify(y) % n
    ensures Rounds(mix, xor, SparseEntry(mix, select, Checkpoints(mix, x, stride, n / stride), stride),
      Iterate(mix, x, n), n)
      == Dense(mix, xor, integerify, x, n)
  {
    var sparse := SparseEntry(mix, select, Checkpoints(mix, x, stride, n / stride), stride);
    forall y
      ensures sparse(y) == DenseEntry(mix, integerify, x, n)(y)
    {
      SparseEntryIsDense(mix, integerify, select, x, stride, n, y);
    }
    RoundsAgree(mix, xor, sparse, DenseEntry(mix, integerify, x, n), Iterate(mix, x, n), n);
  }
}
