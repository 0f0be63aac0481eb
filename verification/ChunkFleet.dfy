/**
 Many chunks, one target table: workers examine disjoint chunks side by side, their results are folded
 into one state in any order, and a later `--changed-only` run believes that state.
 */
module ChunkFleet {
  import opened Wrappers
  import opened ChunkTables
  import opened ChunkCopy
  import opened ChunkRun

  /** The source chunks and their counters by name, and the whole target table. */
  datatype Fleet = Fleet(sources: map<string, set<Row>>, sigs: map<string, Signature>, target: set<Row>)

  function RangeOf(f: Fleet, c: Chunk): set<Row> {
    Within(f.target, Whole(c))
  }

  predicate Disjoint(a: Chunk, b: Chunk) {
    a.rangeEnd <= b.rangeStart || b.rangeEnd <= a.rangeStart
  }

  /** The chunks of one table: named apart, and with disjoint ranges. */
  predicate Apart(chunks: seq<Chunk>) {
    forall i, j | 0 <= i < j < |chunks| :: chunks[i].name != chunks[j].name && Disjoint(chunks[i], chunks[j])
  }

  predicate Holds(f: Fleet, chunks: seq<Chunk>) {
    forall c | c in chunks :: c.name in f.sources && c.name in f.sigs && |f.sigs[c.name]| == 6
  }

  // ---- workers do not meet ------------------------------------------------

  /** Each version of the table comes from the one before by a worker that writes its own chunk's range. */
  predicate Interleaved(versions: seq<set<Row>>, owners: seq<Chunk>) {
    && |versions| == |owners| + 1
    && forall k | 0 <= k < |owners| ::
      Outside(versions[k + 1], Whole(owners[k])) == Outside(versions[k], Whole(owners[k]))
  }

  lemma OtherRangeUntouched(before: set<Row>, after: set<Row>, owner: Chunk, c: Chunk)
    requires Disjoint(owner, c) && Outside(after, Whole(owner)) == Outside(before, Whole(owner))
    ensures Within(after, Whole(c)) == Within(before, Whole(c))
  {
    forall r: Row | InSpan(r, Whole(c)) ensures r in after <==> r in before {
      assert r in Outside(after, Whole(owner)) <==> r in after;
      assert r in Outside(before, Whole(owner)) <==> r in before;
    }
  }

  /** However the workers interleave, a chunk's range moves only in steps of its own worker. */
  lemma {:induction false} OnlyTheOwnerMovesARange(versions: seq<set<Row>>, owners: seq<Chunk>, c: Chunk,
      i: nat, j: nat)
    requires Interleaved(versions, owners) && i <= j <= |owners|
    requires forall k | i <= k < j :: Disjoint(owners[k], c)
    ensures Within(versions[j], Whole(c)) == Within(versions[i], Whole(c))
    decreases j - i
  {
    if i < j {
      OnlyTheOwnerMovesARange(versions, owners, c, i, j - 1);
      OtherRangeUntouched(versions[j - 1], versions[j], owners[j - 1], c);
    }
  }

  /** Writes of the source before and after an examination, and the rest of the table, do not disturb its outcome. */
  lemma ExaminationStands(c: Chunk, earlier: set<Row>, earlierSig: Signature, src0: set<Row>, sig0: Signature,
                          result: Outcome<ChunkResult>, src1: set<Row>, sig1: Signature,
                          later: set<Row>, laterSig: Signature, versions: seq<set<Row>>, owners: seq<Chunk>,
                          returned: nat, end: nat)
    requires Changes(earlier, earlierSig, src0, sig0) && SameNonInserts(earlierSig, sig0)
    requires Changes(src1, sig1, later, laterSig) && SameNonInserts(sig1, laterSig)
    requires Interleaved(versions, owners) && returned <= end <= |owners|
    requires Examination(src0, sig0, result, src1, sig1, Within(versions[returned], Whole(c)))
    requires forall k | returned <= k < end :: Disjoint(owners[k], c)
    ensures Examination(earlier, earlierSig, result, later, laterSig, Within(versions[end], Whole(c)))
  {
    hide Changes, SameNonInserts, Disjoint;
    OnlyTheOwnerMovesARange(versions, owners, c, returned, end);
    ChangesCompose(earlier, earlierSig, src0, sig0, src1, sig1);
    ChangesCompose(earlier, earlierSig, src1, sig1, later, laterSig);
    InsertsGrow(src1, sig1, later, laterSig);
    if result.Returned? && |result.value.sig| == 6 {
      var base :| InSyncWith(base, result.value, src1, sig1, Within(versions[returned], Whole(c)));
      ChangesCompose(base, result.value.sig, src1, sig1, later, laterSig);
      assert InSyncWith(base, result.value, later, laterSig, Within(versions[end], Whole(c)));
    }
  }

  // ---- a run over the fleet -----------------------------------------------

  function Entry(records: Records, c: Chunk): Option<Record> {
    Lookup(records, c.name)
  }

  /** Every record keeps its promise, and no range holds a row its source lacks. */
  predicate Honest(chunks: seq<Chunk>, records: Records, f: Fleet)
    requires Holds(f, chunks)
  {
    forall c | c in chunks ::
      && RangeOf(f, c) <= f.sources[c.name]
      && RecordFits(c, Entry(records, c), f.sources[c.name], f.sigs[c.name], RangeOf(f, c))
  }

  /**
   One run beside insert-only writers: each finished chunk has been examined, and the range of any
   other chunk is as it was while its source may have gained rows. That every finished chunk is
   `Examined` is what `ChunkLink.CopyOneChunk` ensures among other workers, carried to the end of the run
   by `ExaminationStands`.
   */
  ghost predicate Ran(chunks: seq<Chunk>, f: Fleet, done: seq<Finished>, f': Fleet)
    requires Holds(f, chunks) && Holds(f', chunks)
  {
    && DistinctChunks(done)
    && (forall d | d in done :: d.chunk in chunks && Examined(f, d, f'))
    && (forall c | c in chunks && c.name !in Names(done) :: LeftAlone(f, c, f'))
  }

  ghost predicate Examined(f: Fleet, d: Finished, f': Fleet) {
    var name := d.chunk.name;
    && name in f.sources && name in f.sigs && name in f'.sources && name in f'.sigs
    && Examination(f.sources[name], f.sigs[name], d.result, f'.sources[name], f'.sigs[name], RangeOf(f', d.chunk))
  }

  predicate LeftAlone(f: Fleet, c: Chunk, f': Fleet) {
    && c.name in f.sources && c.name in f.sigs && c.name in f'.sources && c.name in f'.sigs
    && Changes(f.sources[c.name], f.sigs[c.name], f'.sources[c.name], f'.sigs[c.name])
    && SameNonInserts(f.sigs[c.name], f'.sigs[c.name])
    && RangeOf(f', c) == RangeOf(f, c)
  }

  lemma SameName(chunks: seq<Chunk>, a: Chunk, b: Chunk)
    requires Apart(chunks) && a in chunks && b in chunks && a.name == b.name
    ensures a == b
  {
    var i :| 0 <= i < |chunks| && chunks[i] == a;
    var j :| 0 <= j < |chunks| && chunks[j] == b;
    assert i == j;
  }

  /** After a run the folded state is as honest as the one before, whatever the completion order. */
  lemma RunStaysHonest(chunks: seq<Chunk>, records: Records, f: Fleet, done: seq<Finished>, f': Fleet)
    requires Apart(chunks) && Holds(f, chunks) && Holds(f', chunks)
    requires Honest(chunks, records, f) && Ran(chunks, f, done, f')
    ensures Honest(chunks, FoldAll(records, done), f')
  {
    hide RecordFits, Examination, Changes, FoldAll, SameNonInserts;
    FoldReflects(records, done);
    var after := FoldAll(records, done);
    forall c | c in chunks
      ensures RangeOf(f', c) <= f'.sources[c.name]
      ensures RecordFits(c, Entry(after, c), f'.sources[c.name], f'.sigs[c.name], RangeOf(f', c))
    {
      if c.name in Names(done) {
        var d :| d in done && d.chunk.name == c.name;
        SameName(chunks, d.chunk, c);
        FinishedStaysHonest(f, d, f', Entry(after, c));
      } else {
        LeftAloneStaysHonest(records, f, c, f');
        assert Entry(after, c) == Entry(records, c);
      }
    }
  }

  lemma FinishedStaysHonest(f: Fleet, d: Finished, f': Fleet, entry: Option<Record>)
    requires Examined(f, d, f')
    requires entry == if d.result.Raised? then None else Some(StateEntry(d.chunk, d.result.value))
    ensures var name := d.chunk.name;
      RangeOf(f', d.chunk) <= f'.sources[name]
        && RecordFits(d.chunk, entry, f'.sources[name], f'.sigs[name], RangeOf(f', d.chunk))
  {
    if d.result.Returned? {
      var name := d.chunk.name;
      ExaminedRecordFits(d.chunk, f.sources[name], f.sigs[name], d.result.value, f'.sources[name], f'.sigs[name],
        RangeOf(f', d.chunk));
    }
  }

  lemma LeftAloneStaysHonest(records: Records, f: Fleet, c: Chunk, f': Fleet)
    requires LeftAlone(f, c, f') && RangeOf(f, c) <= f.sources[c.name]
    requires RecordFits(c, Entry(records, c), f.sources[c.name], f.sigs[c.name], RangeOf(f, c))
    ensures RangeOf(f', c) <= f'.sources[c.name]
    ensures RecordFits(c, Entry(records, c), f'.sources[c.name], f'.sigs[c.name], RangeOf(f', c))
  {
    RecordSurvivesWriters(c, Entry(records, c), f.sources[c.name], f.sigs[c.name], f'.sources[c.name], f'.sigs[c.name],
      RangeOf(f, c));
  }

  /** What an examination demands of the chunk it starts on holds whenever the run gets to it. */
  lemma ReadyToExamine(chunks: seq<Chunk>, records: Records, f: Fleet, c: Chunk, versions: seq<set<Row>>,
                       owners: seq<Chunk>, start: nat, src: set<Row>, sig: Signature)
    requires Holds(f, chunks) && Honest(chunks, records, f) && c in chunks
    requires Interleaved(versions, owners) && start <= |owners| && versions[0] == f.target
    requires forall k | 0 <= k < start :: Disjoint(owners[k], c)
    requires Changes(f.sources[c.name], f.sigs[c.name], src, sig) && SameNonInserts(f.sigs[c.name], sig)
    ensures Within(versions[start], Whole(c)) <= src
    ensures RecordBounds(c, Entry(records, c), src, sig, Within(versions[start], Whole(c)))
  {
    hide Disjoint, Changes, SameNonInserts;
    OnlyTheOwnerMovesARange(versions, owners, c, 0, start);
    InsertsGrow(f.sources[c.name], f.sigs[c.name], src, sig);
    BoundsSurviveWriters(c, Entry(records, c), f.sources[c.name], f.sigs[c.name], src, sig, RangeOf(f, c));
  }

  // ---- any number of runs -------------------------------------------------

  /** The state after the first `n` runs. */
  function StateAfter(records: Records, runs: seq<seq<Finished>>, n: nat): Records
    requires n <= |runs|
  {
    if n == 0 then records else FoldAll(StateAfter(records, runs, n - 1), runs[n - 1])
  }

  ghost predicate History(chunks: seq<Chunk>, fleets: seq<Fleet>, runs: seq<seq<Finished>>) {
    && |fleets| == |runs| + 1
    && (forall k | 0 <= k < |fleets| :: Holds(fleets[k], chunks))
    && (forall k | 0 <= k < |runs| :: Ran(chunks, fleets[k], runs[k], fleets[k + 1]))
  }

  lemma {:induction false} RunsStayHonest(chunks: seq<Chunk>, records: Records, fleets: seq<Fleet>,
      runs: seq<seq<Finished>>, n: nat)
    requires Apart(chunks) && History(chunks, fleets, runs) && n <= |runs|
    requires Honest(chunks, records, fleets[0])
    ensures Honest(chunks, StateAfter(records, runs, n), fleets[n])
  {
    if n > 0 {
      hide Honest, Ran, Apart, FoldAll;
      RunsStayHonest(chunks, records, fleets, runs, n - 1);
      RunStaysHonest(chunks, StateAfter(records, runs, n - 1), fleets[n - 1], runs[n - 1], fleets[n]);
    }
  }

  /**
   After any number of runs over any chunks in any order, what a `--changed-only` run leaves out of its
   examination is in sync: the target range of the chunk equals the source chunk.
   */
  lemma UnexaminedChunksAreInSync(chunks: seq<Chunk>, records: Records, fleets: seq<Fleet>, runs: seq<seq<Finished>>,
      n: nat, c: Chunk)
    requires Apart(chunks) && History(chunks, fleets, runs) && n <= |runs|
    requires Honest(chunks, records, fleets[0])
    requires c in Side(chunks, StateAfter(records, runs, n), fleets[n].sigs, true)
    ensures c in chunks && RangeOf(fleets[n], c) == fleets[n].sources[c.name]
  {
    hide Ran, Apart, FoldAll, RecordFits, Side;
    var state := StateAfter(records, runs, n);
    RunsStayHonest(chunks, records, fleets, runs, n);
    SplitIsAPartition(chunks, state, fleets[n].sigs, c);
    UnchangedIsInSync(c, Entry(state, c), fleets[n].sources[c.name], fleets[n].sigs[c.name], RangeOf(fleets[n], c));
  }

  /** A fleet that has never been copied, with no state, is honest. */
  lemma FreshFleetIsHonest(chunks: seq<Chunk>, f: Fleet)
    requires Holds(f, chunks) && forall c | c in chunks :: RangeOf(f, c) == {}
    ensures Honest(chunks, map[], f)
  {
  }
}
