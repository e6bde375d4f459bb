/**
 * The partitioner: cuts an aligned vocabulary record into contiguous chunks
 * of at most `split` entries, chunk i holding entries [i*split, min(n, (i+1)*split)).
 */
module Partition {
  import opened Wrappers
  import opened Vocab

  /** The chunk size used when the caller gives none. */
  const DefaultSplit: nat := 30

  function Min(a: int, b: int): int {
    if a <= b then a else b
  }

  /** ceil(n / k) on naturals: how many chunks of k entries n entries fill. */
  function CeilDiv(n: nat, k: nat): nat
    requires k > 0
    decreases n
  {
    if n == 0 then 0 else 1 + CeilDiv(if n <= k then 0 else n - k, k)
  }

  /** Where chunk i starts: i * k, accumulated one chunk at a time. */
  function Start(i: nat, k: nat): nat {
    if i == 0 then 0 else Start(i - 1, k) + k
  }

  lemma {:induction false} StartIsProduct(i: nat, k: nat)
    ensures Start(i, k) == i * k
  {
    if i > 0 {
      StartIsProduct(i - 1, k);
      assert i * k == (i - 1) * k + k;
    }
  }

  lemma {:induction false} StartMonotone(i: nat, j: nat, k: nat)
    requires i <= j
    ensures Start(i, k) <= Start(j, k)
    decreases j
  {
    if i < j {
      StartMonotone(i, j - 1, k);
    }
  }

  /** CeilDiv(n, k) is the least m with m * k >= n; in particular it is 0 exactly when n is. */
  lemma {:induction false} CeilDivIsCeiling(n: nat, k: nat)
    requires k > 0
    ensures Start(CeilDiv(n, k), k) >= n
    ensures CeilDiv(n, k) > 0 ==> Start(CeilDiv(n, k) - 1, k) < n
    ensures CeilDiv(n, k) == 0 <==> n == 0
    decreases n
  {
    if n > k {
      var q := CeilDiv(n - k, k);
      CeilDivIsCeiling(n - k, k);
      assert CeilDiv(n, k) == q + 1;
      assert Start(q + 1, k) == Start(q, k) + k;
    } else if n > 0 {
      assert CeilDiv(n, k) == 1 + CeilDiv(0, k);
      assert Start(1, k) == Start(0, k) + k;
    }
  }

  /** Every chunk index below the chunk count starts inside the record. */
  lemma PartBounds(n: nat, k: nat, i: nat)
    requires k > 0 && i < CeilDiv(n, k)
    ensures Start(i, k) < n
    ensures Start(i + 1, k) == Start(i, k) + k
  {
    CeilDivIsCeiling(n, k);
    StartMonotone(i, CeilDiv(n, k) - 1, k);
  }

  lemma MulMonotone(a: nat, b: nat, k: nat)
    requires a <= b
    ensures a * k <= b * k
  {
  }

  /** The remainder is determined by any decomposition n == q * k + r with 0 <= r < k. */
  lemma ModUnique(n: int, k: int, q: int, r: int)
    requires k > 0 && 0 <= r < k && n == q * k + r
    ensures n % k == r
  {
    var q', r' := n / k, n % k;
    assert (q - q') * k == r' - r;
    if q - q' >= 1 {
      MulMonotone(1, q - q', k);
    } else if q' - q >= 1 {
      MulMonotone(1, q' - q, k);
    }
  }

  /** The last of the CeilDiv(n, k) chunks holds n mod k entries when that is non-zero, k otherwise. */
  lemma LastChunkLength(n: nat, k: nat)
    requires k > 0 && n > 0
    ensures CeilDiv(n, k) > 0
    ensures n - Start(CeilDiv(n, k) - 1, k) == if n % k == 0 then k else n % k
  {
    CeilDivIsCeiling(n, k);
    var q := CeilDiv(n, k);
    PartBounds(n, k, q - 1);
    StartIsProduct(q - 1, k);
    RemainderOfLastChunk(n, k, q - 1, n - Start(q - 1, k));
  }

  /** If n is p full chunks plus m entries with 0 < m <= k, then m is n mod k, or k when that is 0. */
  lemma RemainderOfLastChunk(n: nat, k: nat, p: nat, m: nat)
    requires k > 0 && 0 < m <= k && n == p * k + m
    ensures m == if n % k == 0 then k else n % k
  {
    if m == k {
      assert n == (p + 1) * k + 0;
      ModUnique(n, k, p + 1, 0);
    } else {
      ModUnique(n, k, p, m);
    }
  }

  /** The entries [lo, hi) of every column. */
  function Slice(v: Vocab, lo: nat, hi: nat): (r: Vocab)
    requires v.WellFormed() && lo <= hi <= v.Size()
    ensures r.WellFormed() && r.Size() == hi - lo
  {
    Vocab(v.stems[lo..hi], v.usages[lo..hi], v.langs[lo..hi])
  }

  /** Chunk i of the record: a non-empty, aligned slice of at most `split` entries. */
  function Part(v: Vocab, split: nat, i: nat): (p: Vocab)
    requires v.WellFormed() && split > 0 && i < CeilDiv(v.Size(), split)
    ensures p.WellFormed()
    ensures 0 < p.Size() <= split
  {
    PartBounds(v.Size(), split, i);
    Slice(v, Start(i, split), Min(v.Size(), Start(i + 1, split)))
  }

  /** Column-wise concatenation of two records. */
  function Append(a: Vocab, b: Vocab): Vocab {
    Vocab(a.stems + b.stems, a.usages + b.usages, a.langs + b.langs)
  }

  /** Column-wise concatenation of chunks, in index order. */
  function Concat(parts: seq<Vocab>): Vocab {
    if parts == [] then Empty
    else Append(Concat(parts[..|parts| - 1]), parts[|parts| - 1])
  }

  /** Why the partitioner refuses a record: the columns it compares are not of equal length. */
  datatype SplitError = UsagesLengthMismatch | LangsLengthMismatch

  /**
   * The partitioner: checks that usages and then langs are as long as stems,
   * then emits chunk i for i in 0 .. ceil(n / split), in order.
   */
  method SplitVocab(v: Vocab, split: nat := DefaultSplit) returns (r: Result<seq<Vocab>, SplitError>)
    requires split > 0
    ensures r == Failure(UsagesLengthMismatch) <==> |v.usages| != |v.stems|
    ensures r == Failure(LangsLengthMismatch) <==> |v.usages| == |v.stems| && |v.langs| != |v.stems|
    ensures r.Success? <==> v.WellFormed()
    ensures r.Success? ==> |r.value| == CeilDiv(v.Size(), split)
    ensures r.Success? ==> forall i :: 0 <= i < |r.value| ==> r.value[i] == Part(v, split, i)
    ensures r.Success? ==> Concat(r.value) == v
  {
    var n := |v.stems|;
    if n != |v.usages| {
      return Failure(UsagesLengthMismatch);
    }
    if n != |v.langs| {
      return Failure(LangsLengthMismatch);
    }
    var nbSplit := CeilDiv(n, split);
    var parts: seq<Vocab> := [];
    SliceEmpty(v);
    for i := 0 to nbSplit
      invariant parts == FirstParts(v, split, i)
      invariant Concat(parts) == Slice(v, 0, Min(n, Start(i, split)))
    {
      var partition := Emit(v, split, i);
      FirstPartsAt(v, split, i);
      ConcatExtend(v, split, parts, i);
      parts := parts + [partition];
    }
    FirstPartsAt(v, split, nbSplit);
    CeilDivIsCeiling(n, split);
    SliceWhole(v);
    r := Success(parts);
  }

  /** Chunk i, sliced from [i * split, min(n, (i + 1) * split)) of each column as the partitioner's loop body does. */
  method Emit(v: Vocab, split: nat, i: nat) returns (partition: Vocab)
    requires v.WellFormed() && split > 0 && i < CeilDiv(v.Size(), split)
    ensures partition == Part(v, split, i)
  {
    var n := |v.stems|;
    PartStart(v, split, i);
    var lo, hi := i * split, Min(n, (i + 1) * split);
    partition := Vocab(v.stems[lo..hi], v.usages[lo..hi], v.langs[lo..hi]);
  }

  /** Appending chunk i to the first i chunks gives the prefix that ends where chunk i ends. */
  lemma ConcatExtend(v: Vocab, split: nat, parts: seq<Vocab>, i: nat)
    requires v.WellFormed() && split > 0 && i < CeilDiv(v.Size(), split) && |parts| == i
    requires Concat(parts) == Slice(v, 0, Min(v.Size(), Start(i, split)))
    ensures Concat(parts + [Part(v, split, i)]) == Slice(v, 0, Min(v.Size(), Start(i + 1, split)))
  {
    PartBounds(v.Size(), split, i);
    var lo, hi := Start(i, split), Min(v.Size(), Start(i + 1, split));
    assert (parts + [Part(v, split, i)])[..i] == parts;
    assert v.stems[0..lo] + v.stems[lo..hi] == v.stems[0..hi];
    assert v.usages[0..lo] + v.usages[lo..hi] == v.usages[0..hi];
    assert v.langs[0..lo] + v.langs[lo..hi] == v.langs[0..hi];
  }

  /** Chunks 0 .. i - 1, in index order. */
  function FirstParts(v: Vocab, split: nat, i: nat): seq<Vocab>
    requires v.WellFormed() && split > 0 && i <= CeilDiv(v.Size(), split)
  {
    if i == 0 then [] else FirstParts(v, split, i - 1) + [Part(v, split, i - 1)]
  }

  lemma {:induction false} FirstPartsAt(v: Vocab, split: nat, i: nat)
    requires v.WellFormed() && split > 0 && i <= CeilDiv(v.Size(), split)
    ensures |FirstParts(v, split, i)| == i
    ensures forall j :: 0 <= j < i ==> FirstParts(v, split, i)[j] == Part(v, split, j)
  {
    if i > 0 {
      FirstPartsAt(v, split, i - 1);
    }
  }

  lemma SliceEmpty(v: Vocab)
    requires v.WellFormed()
    ensures Slice(v, 0, 0) == Empty
  {
  }

  lemma SliceWhole(v: Vocab)
    requires v.WellFormed()
    ensures Slice(v, 0, v.Size()) == v
  {
  }

  /** Chunk i starts at entry i * split. */
  lemma PartStart(v: Vocab, split: nat, i: nat)
    requires v.WellFormed() && split > 0 && i < CeilDiv(v.Size(), split)
    ensures i * split < v.Size()
    ensures Part(v, split, i) == Slice(v, i * split, Min(v.Size(), (i + 1) * split))
  {
    PartBounds(v.Size(), split, i);
    StartIsProduct(i, split);
    StartIsProduct(i + 1, split);
  }

  /** The last chunk holds n mod split entries when that is non-zero, and split entries otherwise. */
  lemma LastPartSize(v: Vocab, split: nat)
    requires v.WellFormed() && split > 0 && v.Size() > 0
    ensures CeilDiv(v.Size(), split) > 0
    ensures Part(v, split, CeilDiv(v.Size(), split) - 1).Size()
         == if v.Size() % split == 0 then split else v.Size() % split
  {
    var n := v.Size();
    LastChunkLength(n, split);
    CeilDivIsCeiling(n, split);
    var i := CeilDiv(n, split) - 1;
    PartBounds(n, split, i);
    assert Min(n, Start(i + 1, split)) == n;
  }

  /** A record no longer than one chunk is emitted as that single chunk, unchanged. */
  lemma SinglePart(v: Vocab, split: nat)
    requires v.WellFormed() && split > 0 && 0 < v.Size() <= split
    ensures CeilDiv(v.Size(), split) == 1
    ensures Part(v, split, 0) == v
  {
  }
}
