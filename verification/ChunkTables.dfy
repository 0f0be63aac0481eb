/** Rows, chunks, change signatures, state records and time slices of the live chunk copy. */
module ChunkTables {
  import opened Wrappers
  import opened SortedSets

  /** A `host_data` row. Times are instants; rows with the same time and key are the same measurement. */
  datatype Row = Row(time: int, key: nat, value: int)

  datatype Chunk = Chunk(name: string, rangeStart: int, rangeEnd: int)

  /** Six counters (heap and compressed: inserts, updates, deletes), or nothing when the chunk has vanished. */
  type Signature = seq<nat>

  /** The `--state-file` record of a verified chunk. */
  datatype Record = Record(rangeStart: int, rangeEnd: int, rows: int, sig: Signature)

  datatype Verdict = Skipped | Copied
  datatype ChunkResult = ChunkResult(outcome: Verdict, rows: int, sig: Signature)

  /** `[start, end)` */
  type Span = (int, int)

  const MINUTE := 60_000_000

  // ---- ranges of rows -----------------------------------------------------

  predicate InSpan(r: Row, w: Span) {
    w.0 <= r.time < w.1
  }

  function Whole(c: Chunk): Span {
    (c.rangeStart, c.rangeEnd)
  }

  function Within(rows: set<Row>, w: Span): set<Row> {
    set r | r in rows && InSpan(r, w)
  }

  function Outside(rows: set<Row>, w: Span): set<Row> {
    set r | r in rows && !InSpan(r, w)
  }

  lemma SubsetOfEqualSize(a: set<Row>, b: set<Row>)
    requires a <= b && |a| == |b|
    ensures a == b
  {
    assert |b - a| == |b| - |a|;
    assert b == a + (b - a);
  }

  // ---- signatures and records ---------------------------------------------

  /** The counters that move only on UPDATE and DELETE agree. */
  predicate SameNonInserts(a: Signature, b: Signature) {
    |a| == 6 && |b| == 6 && a[1] == b[1] && a[2] == b[2] && a[4] == b[4] && a[5] == b[5]
  }

  /** A verified chunk has only gained rows since its record. */
  predicate InsertsOnlySince(c: Chunk, entry: Option<Record>, sig: Signature) {
    && entry.Some? && |sig| == 6 && |entry.value.sig| == 6
    && entry.value.rows >= 0
    && entry.value.rangeStart == c.rangeStart && entry.value.rangeEnd == c.rangeEnd
    && SameNonInserts(entry.value.sig, sig)
  }

  /** The record proves that the chunk needs no work; a chunk without a current signature never does. */
  predicate ChunkUnchangedSinceState(c: Chunk, entry: Option<Record>, sig: Option<Signature>) {
    && entry.Some? && sig.Some?
    && entry.value.rangeStart == c.rangeStart && entry.value.rangeEnd == c.rangeEnd
    && entry.value.rows >= 0
    && entry.value.sig == sig.value
  }

  function StateEntry(c: Chunk, r: ChunkResult): Record {
    Record(c.rangeStart, c.rangeEnd, r.rows, r.sig)
  }

  /** A chunk as verified, offered again with an unmoved signature, is unchanged; any moved counter shows. */
  lemma RecordRecognised(c: Chunk, r: ChunkResult, sig: Signature)
    requires r.rows >= 0
    ensures ChunkUnchangedSinceState(c, Some(StateEntry(c, r)), Some(sig)) <==> sig == r.sig
    ensures |r.sig| == 6 && |sig| == 6 ==>
        (InsertsOnlySince(c, Some(StateEntry(c, r)), sig) <==> SameNonInserts(r.sig, sig))
  {
  }

  /** The counters with other inserts into the heap and into the compressed relation. */
  function WithInserts(sig: Signature, ins: nat, compressedIns: nat): Signature
    requires |sig| == 6
  {
    sig[0 := ins][3 := compressedIns]
  }

  /** Only the two insert counters, of the heap and of the compressed relation, may differ from the record's. */
  lemma InsertsOnlyIff(c: Chunk, e: Record, sig: Signature)
    ensures InsertsOnlySince(c, Some(e), sig) <==>
      && e.rangeStart == c.rangeStart && e.rangeEnd == c.rangeEnd && e.rows >= 0 && |e.sig| == 6
      && exists ins: nat, compressedIns: nat :: sig == WithInserts(e.sig, ins, compressedIns)
    ensures !InsertsOnlySince(c, None, sig)
  {
    if |e.sig| == 6 && |sig| == 6 && SameNonInserts(e.sig, sig) {
      assert sig == WithInserts(e.sig, sig[0], sig[3]);
    }
  }

  /** Both counts are known and equal; -1 stands for a count that was given up. */
  predicate ChunkRowCountsMatch(source: int, target: int) {
    source >= 0 && target >= 0 && source == target
  }

  /**
   A skip on equal counts is right exactly when the target holds no row the source lacks: the counts
   alone do not tell.
   */
  lemma SkipIsRightIff(source: set<Row>, target: set<Row>)
    requires ChunkRowCountsMatch(|source|, |target|)
    ensures target == source <==> target <= source
  {
    if target <= source {
      SubsetOfEqualSize(target, source);
    }
  }

  // ---- time slices --------------------------------------------------------

  /** `date_bin(width, time, range_start)` */
  function BinOf(c: Chunk, width: int, time: int): int
    requires width > 0
  {
    c.rangeStart + (time - c.rangeStart) / width * width
  }

  function InBin(c: Chunk, width: int, rows: set<Row>, b: int): set<Row>
    requires width > 0
  {
    set r | r in rows && BinOf(c, width, r.time) == b
  }

  /** The start of bin number `k`. */
  function BinStart(c: Chunk, width: int, k: nat): int {
    c.rangeStart + k * width
  }

  ghost predicate IsBin(c: Chunk, width: int, b: int) {
    b < c.rangeEnd && exists k: nat :: b == BinStart(c, width, k)
  }

  lemma BinBounds(c: Chunk, width: int, time: int)
    requires width > 0 && c.rangeStart <= time < c.rangeEnd
    ensures var b := BinOf(c, width, time); b <= time < b + width && IsBin(c, width, b)
  {
    var q: nat := (time - c.rangeStart) / width;
    assert BinOf(c, width, time) == BinStart(c, width, q);
  }

  /** Different bins are at least a width apart. */
  lemma BinsApart(c: Chunk, width: int, a: int, b: int)
    requires width > 0 && IsBin(c, width, a) && IsBin(c, width, b) && a < b
    ensures a + width <= b
  {
    var i: nat :| a == BinStart(c, width, i);
    var j: nat :| b == BinStart(c, width, j);
    MultiplesApart(i, j, width);
  }

  lemma MultiplesApart(i: nat, j: nat, width: int)
    requires width > 0 && i * width < j * width
    ensures i * width + width <= j * width
  {
    if j <= i {
      Distribute(j, i - j, width);
    } else {
      Distribute(i, j - i, width);
      Distribute(1, j - i - 1, width);
    }
  }

  lemma Distribute(a: nat, b: nat, width: int)
    requires width > 0
    ensures (a + b) * width == a * width + b * width && b * width >= 0
  {
  }

  /** A bin that holds an instant is the bin of that instant. */
  lemma BinUnique(c: Chunk, width: int, b: int, time: int)
    requires width > 0 && c.rangeStart <= time < c.rangeEnd && IsBin(c, width, b) && b <= time < b + width
    ensures b == BinOf(c, width, time)
  {
    BinBounds(c, width, time);
    var b' := BinOf(c, width, time);
    if b < b' {
      BinsApart(c, width, b, b');
    } else if b' < b {
      BinsApart(c, width, b', b);
    }
  }

  /** `SELECT date_bin(...), count(*) ... GROUP BY 1` over rows of the chunk. */
  function SliceCounts(c: Chunk, width: int, rows: set<Row>): (counts: map<int, nat>)
    requires width > 0
    ensures forall b :: CountAt(counts, b) == |InBin(c, width, rows, b)|
    ensures forall b | b in counts :: exists r :: r in rows && b == BinOf(c, width, r.time)
  {
    var bins := set r | r in rows :: BinOf(c, width, r.time);
    assert forall b | b !in bins :: InBin(c, width, rows, b) == {};
    map b | b in bins :: |InBin(c, width, rows, b)|
  }

  function CountAt(counts: map<int, nat>, b: int): nat {
    if b in counts then counts[b] else 0
  }

  // ---- mismatched slices --------------------------------------------------

  predicate NoLater(a: int, b: int) {
    a <= b
  }

  predicate StrictlySorted(s: seq<int>) {
    forall i, j | 0 <= i < j < |s| :: s[i] < s[j]
  }

  lemma InstantsAreOrdered()
    ensures IsOrder(NoLater)
  {
  }

  /** The bins whose two counts differ, in order. */
  function MismatchedBins(src: map<int, nat>, tgt: map<int, nat>): (r: seq<int>)
    ensures StrictlySorted(r)
    ensures forall b :: b in r <==> CountAt(src, b) != CountAt(tgt, b)
  {
    var bins := set b | b in src.Keys + tgt.Keys && CountAt(src, b) != CountAt(tgt, b);
    InstantsAreOrdered();
    Sorted(bins, NoLater)
  }

  function ClampedWindow(c: Chunk, width: int, b: int): Span {
    (if b < c.rangeStart then c.rangeStart else b, if b + width < c.rangeEnd then b + width else c.rangeEnd)
  }

  /** The windows to re-copy: the mismatched bins, clamped to the chunk. */
  function MismatchedSlices(c: Chunk, src: map<int, nat>, tgt: map<int, nat>, width: int): (r: seq<Span>)
    ensures |r| == |MismatchedBins(src, tgt)|
  {
    var bins := MismatchedBins(src, tgt);
    seq(|bins|, i requires 0 <= i < |bins| => ClampedWindow(c, width, bins[i]))
  }

  ghost predicate CountsOfChunk(c: Chunk, width: int, counts: map<int, nat>) {
    forall b | b in counts :: IsBin(c, width, b)
  }

  lemma CountsAreOfChunk(c: Chunk, width: int, rows: set<Row>)
    requires width > 0 && forall r | r in rows :: InSpan(r, Whole(c))
    ensures CountsOfChunk(c, width, SliceCounts(c, width, rows))
  {
    forall b | b in SliceCounts(c, width, rows) ensures IsBin(c, width, b) {
      var r :| r in rows && b == BinOf(c, width, r.time);
      BinBounds(c, width, r.time);
    }
  }

  ghost predicate Covered(windows: seq<Span>, r: Row) {
    exists i :: 0 <= i < |windows| && InSpan(r, windows[i])
  }

  /**
   The windows are sorted, pairwise disjoint, non-empty, inside the chunk, and cover exactly the rows
   whose bins differ.
   */
  lemma MismatchedSlicesAreExact(c: Chunk, src: map<int, nat>, tgt: map<int, nat>, width: int)
    requires width > 0 && CountsOfChunk(c, width, src) && CountsOfChunk(c, width, tgt)
    ensures var windows := MismatchedSlices(c, src, tgt, width);
      && (forall i | 0 <= i < |windows| :: c.rangeStart <= windows[i].0 < windows[i].1 <= c.rangeEnd)
      && (forall i, j | 0 <= i < j < |windows| :: windows[i].1 <= windows[j].0)
      && (forall r: Row | InSpan(r, Whole(c)) ::
            Covered(windows, r) <==> CountAt(src, BinOf(c, width, r.time)) != CountAt(tgt, BinOf(c, width, r.time)))
  {
    var bins := MismatchedBins(src, tgt);
    var windows := MismatchedSlices(c, src, tgt, width);
    forall i | 0 <= i < |bins| ensures IsBin(c, width, bins[i]) && c.rangeStart <= bins[i] {
      assert bins[i] in bins;
      var k: nat :| bins[i] == BinStart(c, width, k);
      assert k * width >= 0;
    }
    forall i, j | 0 <= i < j < |windows| ensures windows[i].1 <= windows[j].0 {
      BinsApart(c, width, bins[i], bins[j]);
    }
    forall r: Row | InSpan(r, Whole(c))
      ensures Covered(windows, r) <==> CountAt(src, BinOf(c, width, r.time)) != CountAt(tgt, BinOf(c, width, r.time))
    {
      CoveredIffMismatched(c, src, tgt, width, r);
    }
  }

  lemma CoveredIffMismatched(c: Chunk, src: map<int, nat>, tgt: map<int, nat>, width: int, r: Row)
    requires width > 0 && CountsOfChunk(c, width, src) && CountsOfChunk(c, width, tgt) && InSpan(r, Whole(c))
    ensures Covered(MismatchedSlices(c, src, tgt, width), r) <==>
      CountAt(src, BinOf(c, width, r.time)) != CountAt(tgt, BinOf(c, width, r.time))
  {
    var bins := MismatchedBins(src, tgt);
    var windows := MismatchedSlices(c, src, tgt, width);
    var b := BinOf(c, width, r.time);
    BinBounds(c, width, r.time);
    if b in bins {
      var i :| 0 <= i < |bins| && bins[i] == b;
      assert InSpan(r, windows[i]);
    }
    if Covered(windows, r) {
      var i :| 0 <= i < |windows| && InSpan(r, windows[i]);
      assert bins[i] in bins && IsBin(c, width, bins[i]);
      BinUnique(c, width, bins[i], r.time);
    }
  }

  /** A subset with equal counts in a bin has equal contents there. */
  lemma EqualCountsEqualBin(c: Chunk, width: int, source: set<Row>, target: set<Row>, b: int)
    requires width > 0 && target <= source
    requires CountAt(SliceCounts(c, width, source), b) == CountAt(SliceCounts(c, width, target), b)
    ensures InBin(c, width, source, b) == InBin(c, width, target, b)
  {
    SubsetOfEqualSize(InBin(c, width, target, b), InBin(c, width, source, b));
  }

  /** Re-copying exactly the mismatched windows makes a subset target equal to the source. */
  lemma ResyncOfMismatchedIsEnough(c: Chunk, width: int, source: set<Row>, target: set<Row>, r: Row)
    requires width > 0 && target <= source && (forall x | x in source :: InSpan(x, Whole(c))) && r in source
    ensures r in target
        || Covered(MismatchedSlices(c, SliceCounts(c, width, source), SliceCounts(c, width, target), width), r)
  {
    var s, t := SliceCounts(c, width, source), SliceCounts(c, width, target);
    CountsAreOfChunk(c, width, source);
    CountsAreOfChunk(c, width, target);
    CoveredIffMismatched(c, s, t, width, r);
    var b := BinOf(c, width, r.time);
    if CountAt(s, b) == CountAt(t, b) {
      EqualCountsEqualBin(c, width, source, target, b);
      assert r in InBin(c, width, source, b);
    }
  }
}
