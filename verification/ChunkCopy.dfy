/**
 One chunk being copied from a live source to the target, and its state record. The source may change
 between any two statements; every statement may raise.
 */
module ChunkCopy {
  import opened Wrappers
  import opened ChunkTables

  datatype CopyOptions = CopyOptions(force: bool, dump: bool, verify: bool, sliceMinutes: int)

  datatype PassOutcome = Unchanged | Examined | Killed

  /** The statements of one examination; the windows of a copy are numbered. */
  datatype Statement =
    | Connect | ReadSignature | CountSource | CountTarget | Decompress | SliceSource | SliceTarget
    | Delete(window: nat) | Copy(window: nat) | Restore(window: nat) | Recount | RecountSource | Compress

  /**
   How the two databases answer during a run: whether the catalog query that selects chunks lists this
   one, whether its own signature query finds it, which statements raise, which counts are cancelled
   until they are given up, and whether the run is killed.
   */
  datatype Db = Db(
    listed: bool, found: bool, raising: set<Statement>, cancelled: set<Statement>, killed: bool)

  /** A run of the tool, with a state file or without one. */
  datatype Run = Recorded(opts: CopyOptions, changedOnly: bool, db: Db) | Unrecorded(opts: CopyOptions, db: Db)

  // ---- how the source may move --------------------------------------------

  /** Six counters that never run backwards. */
  predicate AtMost(a: Signature, b: Signature) {
    |a| == 6 && |b| == 6 && forall i | 0 <= i < 6 :: a[i] <= b[i]
  }

  /**
   What the writers can do between two moments: every change moves some counter, and a change other
   than adding rows moves a counter that is not an insert counter.
   */
  predicate Changes(src0: set<Row>, sig0: Signature, src1: set<Row>, sig1: Signature) {
    && AtMost(sig0, sig1)
    && (sig0 == sig1 ==> src0 == src1)
    && (SameNonInserts(sig0, sig1) ==> src0 <= src1)
  }

  lemma ChangesCompose(src0: set<Row>, sig0: Signature, src1: set<Row>, sig1: Signature, src2: set<Row>,
      sig2: Signature)
    requires Changes(src0, sig0, src1, sig1) && Changes(src1, sig1, src2, sig2)
    ensures Changes(src0, sig0, src2, sig2)
    ensures SameNonInserts(sig0, sig2) <==> SameNonInserts(sig0, sig1) && SameNonInserts(sig1, sig2)
  {
    if sig0 == sig2 {
      assert sig0 == sig1;
    }
  }

  /** `mid` is what the source was at some moment between the two. */
  ghost predicate Seen(src0: set<Row>, sig0: Signature, mid: set<Row>, src1: set<Row>, sig1: Signature) {
    exists counters :: Changes(src0, sig0, mid, counters) && Changes(mid, counters, src1, sig1)
  }

  /** What was seen lies between the two if only inserts came, and is both if nothing was written. */
  lemma SeenBounds(src0: set<Row>, sig0: Signature, mid: set<Row>, src1: set<Row>, sig1: Signature)
    requires Seen(src0, sig0, mid, src1, sig1)
    ensures SameNonInserts(sig0, sig1) ==> src0 <= mid <= src1
    ensures sig0 == sig1 ==> mid == src0 == src1
  {
    var counters :| Changes(src0, sig0, mid, counters) && Changes(mid, counters, src1, sig1);
    ChangesCompose(src0, sig0, mid, counters, src1, sig1);
    if sig0 == sig1 {
      assert counters == sig0;
    }
  }

  lemma SeenAt(src0: set<Row>, sig0: Signature, mid: set<Row>, counters: Signature, src1: set<Row>, sig1: Signature)
    requires Changes(src0, sig0, mid, counters) && Changes(mid, counters, src1, sig1)
    ensures Seen(src0, sig0, mid, src1, sig1)
  {
  }

  lemma SeenWithin(src0: set<Row>, sig0: Signature, a: set<Row>, sigA: Signature, mid: set<Row>,
                   b: set<Row>, sigB: Signature, src1: set<Row>, sig1: Signature)
    requires Changes(src0, sig0, a, sigA) && Seen(a, sigA, mid, b, sigB) && Changes(b, sigB, src1, sig1)
    ensures Seen(src0, sig0, mid, src1, sig1)
  {
    var counters :| Changes(a, sigA, mid, counters) && Changes(mid, counters, b, sigB);
    ChangesCompose(src0, sig0, a, sigA, mid, counters);
    ChangesCompose(mid, counters, b, sigB, src1, sig1);
  }

  /** Without a signature nothing is claimed of the counters. */
  lemma UnknownSignature()
    ensures forall sig :: !SameNonInserts([], sig)
  {
  }

  lemma InsertsGrow(src0: set<Row>, sig0: Signature, src1: set<Row>, sig1: Signature)
    requires Changes(src0, sig0, src1, sig1)
    ensures SameNonInserts(sig0, sig1) ==> src0 <= src1
  {
  }

  lemma NothingChanges(src: set<Row>, sig: Signature)
    requires |sig| == 6
    ensures Changes(src, sig, src, sig) && SameNonInserts(sig, sig)
  {
  }

  // ---- what a state record promises ---------------------------------------

  /**
   The promise of a record of this chunk: its signature is one the source has had; while only inserts
   have followed, the target range holds no row the source lacks; while nothing has followed, the two
   are equal.
   */
  predicate RecordFits(c: Chunk, entry: Option<Record>, src: set<Row>, sig: Signature, range: set<Row>) {
    entry.Some? && entry.value.rangeStart == c.rangeStart && entry.value.rangeEnd == c.rangeEnd ==>
      && entry.value.rows >= 0
      && (|entry.value.sig| == 6 ==>
            && AtMost(entry.value.sig, sig)
            && (SameNonInserts(entry.value.sig, sig) ==> range <= src)
            && (entry.value.sig == sig ==> range == src))
  }

  /**
   What is left of the promise when a copy has broken off: the record may match although the range
   lacks rows, but while only inserts have followed, the range still holds no row the source lacks.
   */
  predicate RecordBounds(c: Chunk, entry: Option<Record>, src: set<Row>, sig: Signature, range: set<Row>) {
    entry.Some? && entry.value.rangeStart == c.rangeStart && entry.value.rangeEnd == c.rangeEnd ==>
      && entry.value.rows >= 0
      && (|entry.value.sig| == 6 ==>
            AtMost(entry.value.sig, sig) && (SameNonInserts(entry.value.sig, sig) ==> range <= src))
  }

  lemma BoundsSurviveWriters(c: Chunk, entry: Option<Record>, src0: set<Row>, sig0: Signature,
                             src1: set<Row>, sig1: Signature, range: set<Row>)
    requires RecordBounds(c, entry, src0, sig0, range) && Changes(src0, sig0, src1, sig1)
    ensures RecordBounds(c, entry, src1, sig1, range)
  {
  }

  lemma BoundsSurviveCopy(c: Chunk, entry: Option<Record>, src0: set<Row>, sig0: Signature, range0: set<Row>,
                          src1: set<Row>, sig1: Signature, range1: set<Row>)
    requires RecordBounds(c, entry, src0, sig0, range0) && Changes(src0, sig0, src1, sig1)
    requires SameNonInserts(sig0, sig1) && range0 <= src0 ==> range1 <= src1
    ensures RecordBounds(c, entry, src1, sig1, range1)
  {
    if entry.Some? && |entry.value.sig| == 6 && SameNonInserts(entry.value.sig, sig1) {
      if AtMost(entry.value.sig, sig0) {
        assert SameNonInserts(entry.value.sig, sig0) && SameNonInserts(sig0, sig1);
      }
    }
  }

  /** Counters only move forward: a record that matches now has matched before, when nothing was written since. */
  lemma MatchesOnlyTheFirst(c: Chunk, entry: Option<Record>, src0: set<Row>, sig0: Signature, range0: set<Row>,
                            src1: set<Row>, sig1: Signature)
    requires RecordBounds(c, entry, src0, sig0, range0) && Changes(src0, sig0, src1, sig1)
    ensures ChunkUnchangedSinceState(c, entry, Some(sig1)) <==>
      ChunkUnchangedSinceState(c, entry, Some(sig0)) && sig1 == sig0
  {
  }

  lemma RecordFitsIsBounded(c: Chunk, entry: Option<Record>, src: set<Row>, sig: Signature, range: set<Row>)
    ensures RecordFits(c, entry, src, sig, range) ==> RecordBounds(c, entry, src, sig, range)
    ensures RecordFits(c, None, src, sig, range)
  {
  }

  /** A chunk that has only gained rows since its record has no foreign row in its range. */
  lemma RangeIsBounded(c: Chunk, entry: Option<Record>, before: Signature, src: set<Row>, sig: Signature,
                       range: set<Row>)
    requires RecordBounds(c, entry, src, sig, range)
    ensures InsertsOnlySince(c, entry, before) && SameNonInserts(before, sig) ==> range <= src
  {
  }

  /** Only a record that matches the counters can be wrong, and it is so exactly when the two differ. */
  lemma BoundedRecordFitsIff(c: Chunk, entry: Option<Record>, src: set<Row>, sig: Signature, range: set<Row>)
    requires |sig| == 6 && RecordBounds(c, entry, src, sig, range)
    ensures RecordFits(c, entry, src, sig, range) <==> (ChunkUnchangedSinceState(c, entry, Some(sig)) ==> range == src)
  {
  }

  /** Writers never break a record. */
  lemma RecordSurvivesWriters(c: Chunk, entry: Option<Record>, src0: set<Row>, sig0: Signature,
                              src1: set<Row>, sig1: Signature, range: set<Row>)
    requires RecordFits(c, entry, src0, sig0, range) && Changes(src0, sig0, src1, sig1)
    ensures RecordFits(c, entry, src1, sig1, range)
  {
    if entry.Some? && |entry.value.sig| == 6 && entry.value.sig == sig1 {
      if AtMost(entry.value.sig, sig0) {
        assert sig0 == sig1;
      }
    }
  }

  /** A skip on the record alone is right. */
  lemma UnchangedIsInSync(c: Chunk, entry: Option<Record>, src: set<Row>, sig: Signature, range: set<Row>)
    requires |sig| == 6 && RecordFits(c, entry, src, sig, range) && ChunkUnchangedSinceState(c, entry, Some(sig))
    ensures range == src
  {
  }

  /**
   Once the record's signature is behind the source's, no target content can break it: a run killed
   in the middle of re-copying such a chunk leaves a harmless record.
   */
  lemma BehindRecordIsHarmless(c: Chunk, entry: Option<Record>, src0: set<Row>, sig0: Signature, range0: set<Row>,
                               src1: set<Row>, sig1: Signature, range1: set<Row>)
    requires RecordFits(c, entry, src0, sig0, range0) && Changes(src0, sig0, src1, sig1)
    requires !ChunkUnchangedSinceState(c, entry, Some(sig0))
    requires SameNonInserts(sig0, sig1) && range0 <= src0 ==> range1 <= src1
    ensures RecordFits(c, entry, src1, sig1, range1)
  {
    if entry.Some? && entry.value.rangeStart == c.rangeStart && entry.value.rangeEnd == c.rangeEnd
      && |entry.value.sig| == 6 {
      var e := entry.value.sig;
      assert e != sig0;
      assert e == sig1 ==> e == sig0;
      if SameNonInserts(e, sig1) {
        assert SameNonInserts(e, sig0) && SameNonInserts(sig0, sig1);
      }
    }
  }

  /**
   An interrupted copy can leave any part of the source in the range. The old record keeps its promise
   whatever is left, and whatever is inserted, exactly when it did not match the counters before the
   copy, or the source chunk was empty.
   */
  lemma InterruptedRecordIff(c: Chunk, entry: Option<Record>, src0: set<Row>, sig0: Signature, range0: set<Row>)
    requires |sig0| == 6 && RecordFits(c, entry, src0, sig0, range0)
    ensures (!ChunkUnchangedSinceState(c, entry, Some(sig0)) || src0 == {}) <==>
      forall src1, sig1, range1 |
        Changes(src0, sig0, src1, sig1) && SameNonInserts(sig0, sig1) && range1 <= src1 ::
        RecordFits(c, entry, src1, sig1, range1)
  {
    hide Changes, ChunkUnchangedSinceState;
    if !ChunkUnchangedSinceState(c, entry, Some(sig0)) || src0 == {} {
      forall src1, sig1, range1 |
        Changes(src0, sig0, src1, sig1) && SameNonInserts(sig0, sig1) && range1 <= src1
        ensures RecordFits(c, entry, src1, sig1, range1)
      {
        InterruptedRecordFits(c, entry, src0, sig0, range0, src1, sig1, range1);
      }
    } else {
      NothingChanges(src0, sig0);
      BoundedRecordFitsIff(c, entry, src0, sig0, {});
      assert !RecordFits(c, entry, src0, sig0, {});
    }
  }

  lemma InterruptedRecordFits(c: Chunk, entry: Option<Record>, src0: set<Row>, sig0: Signature, range0: set<Row>,
                              src1: set<Row>, sig1: Signature, range1: set<Row>)
    requires |sig0| == 6 && RecordFits(c, entry, src0, sig0, range0)
    requires !ChunkUnchangedSinceState(c, entry, Some(sig0)) || src0 == {}
    requires Changes(src0, sig0, src1, sig1) && SameNonInserts(sig0, sig1) && range1 <= src1
    ensures RecordFits(c, entry, src1, sig1, range1)
  {
    if !ChunkUnchangedSinceState(c, entry, Some(sig0)) {
      BehindRecordIsHarmless(c, entry, src0, sig0, range0, src1, sig1, range1);
    } else if sig0 != sig1 {
      assert entry.value.sig == sig0;
    }
  }

  /**
   A run without a state file has deleted the range of a synced chunk when its COPY raises. The record
   of the earlier run matches the counters as before, and the next `--changed-only` run believes it.
   */
  lemma InterruptedCopyLies(c: Chunk, src: set<Row>, sig: Signature)
    requires |sig| == 6 && src != {} && forall r | r in src :: InSpan(r, Whole(c))
    ensures var record := StateEntry(c, ChunkResult(Copied, |src|, sig));
      var deleted := Outside(src, Whole(c));
      && RecordFits(c, Some(record), src, sig, src)
      && deleted == {} && !RecordFits(c, Some(record), src, sig, deleted)
      && ChunkUnchangedSinceState(c, Some(record), Some(sig))
  {
    assert Outside(src, Whole(c)) == {};
    NothingChanges(src, sig);
  }

  /** The record written after a pass fits when the range was in sync with the source as it was at the signature. */
  lemma NewRecordFits(c: Chunk, r: ChunkResult, base: set<Row>, src: set<Row>, sig: Signature, range: set<Row>)
    requires r.rows >= 0 && (|r.sig| == 6 ==> Changes(base, r.sig, src, sig))
    requires |r.sig| == 6 && SameNonInserts(r.sig, sig) ==> base <= range <= src
    ensures RecordFits(c, Some(StateEntry(c, r)), src, sig, range)
  {
  }

  /** The record that a skip on equal counts writes keeps its promise exactly when the target holds no foreign row. */
  lemma SkipRecordFitsIff(c: Chunk, src: set<Row>, sig: Signature, target: set<Row>)
    requires |sig| == 6 && ChunkRowCountsMatch(|src|, |target|)
    ensures RecordFits(c, Some(StateEntry(c, ChunkResult(Skipped, |src|, sig))), src, sig, target) <==> target <= src
  {
    SkipIsRightIff(src, target);
  }

  function Updated(rows: set<Row>, before: Row, after: Row): set<Row> {
    rows - {before} + {after}
  }

  /**
   One UPDATE of a synced chunk with an honest record. The writers move the update counter, the record
   is rightly not believed, but the counts still match; the record that the skip then writes is
   believed by every later `--changed-only` run, although the target keeps the old row.
   */
  lemma EqualCountsMissAnUpdate(c: Chunk, src: set<Row>, sig: Signature, before: Row, after: Row)
    requires |sig| == 6 && before in src && after !in src
    ensures var src', sig', record :=
        Updated(src, before, after), sig[1 := sig[1] + 1], StateEntry(c, ChunkResult(Skipped, |src|, sig));
      var written := StateEntry(c, ChunkResult(Skipped, |src|, sig'));
      && RecordFits(c, Some(record), src, sig, src)
      && Changes(src, sig, src', sig') && !SameNonInserts(sig, sig')
      && !ChunkUnchangedSinceState(c, Some(record), Some(sig')) && !InsertsOnlySince(c, Some(record), sig')
      && ChunkRowCountsMatch(|src'|, |src|) && src != src'
      && !RecordFits(c, Some(written), src', sig', src) && ChunkUnchangedSinceState(c, Some(written), Some(sig'))
  {
    var src', sig' := Updated(src, before, after), sig[1 := sig[1] + 1];
    assert after in src' && |src'| == |src|;
    assert sig'[1] != sig[1];
  }

  /** Had the signature been read after the copy, one insert in between would leave a record that lies. */
  lemma LateSignatureLies(c: Chunk, before: Row, between: Row)
    requires before != between
    ensures var early, late := [1, 0, 0, 0, 0, 0], [2, 0, 0, 0, 0, 0];
      var src0, src1 := {before}, {before, between};
      && Changes(src0, early, src1, late)
      && RecordFits(c, Some(StateEntry(c, ChunkResult(Copied, 1, early))), src1, late, src0)
      && !RecordFits(c, Some(StateEntry(c, ChunkResult(Copied, 1, late))), src1, late, src0)
  {
    var early: Signature, late: Signature := [1, 0, 0, 0, 0, 0], [2, 0, 0, 0, 0, 0];
    assert early[0] != late[0];
    assert between in {before, between} && between !in {before};
  }

  // ---- one examination, seen from outside ---------------------------------

  /** The chunk was in sync with `base`, the source as it was when the returned signature was read, or with more. */
  ghost predicate InSyncWith(base: set<Row>, r: ChunkResult, src: set<Row>, sig: Signature, range: set<Row>) {
    Changes(base, r.sig, src, sig) && SameNonInserts(r.sig, sig) && base <= range
  }

  /** What an examination beside insert-only writers does to its chunk, whatever happens elsewhere. */
  ghost predicate Examination(src0: set<Row>, sig0: Signature, result: Outcome<ChunkResult>,
                              src: set<Row>, sig: Signature, range: set<Row>) {
    && Changes(src0, sig0, src, sig) && SameNonInserts(sig0, sig) && range <= src
    && (result.Returned? ==>
          && result.value.rows == |range|
          && (|result.value.sig| == 6 ==> exists base :: InSyncWith(base, result.value, src, sig, range)))
  }

  /** The record of a returned examination keeps its promise. */
  lemma ExaminedRecordFits(c: Chunk, src0: set<Row>, sig0: Signature, r: ChunkResult, src: set<Row>, sig: Signature,
      range: set<Row>)
    requires Examination(src0, sig0, Returned(r), src, sig, range)
    ensures RecordFits(c, Some(StateEntry(c, r)), src, sig, range)
  {
    if |r.sig| == 6 {
      var base :| InSyncWith(base, r, src, sig, range);
      NewRecordFits(c, r, base, src, sig, range);
    }
  }

  // ---- the link -----------------------------------------------------------

  /** The source chunk, the target table and the state record of the chunk. */
  class ChunkLink {
    const chunk: Chunk
    /** Writers of the source only ever insert. */
    const insertOnly: bool
    /** No other worker writes the target meanwhile. */
    const alone: bool

    var src: set<Row>
    var sig: Signature
    /** The whole target table; the chunk owns the rows of its time range. */
    var tgt: set<Row>
    var entry: Option<Record>
    /** The rows of the target outside the chunk, as other workers last left them. */
    ghost var elsewhere: set<Row>

    constructor (c: Chunk, source: set<Row>, counters: Signature, target: set<Row>, onlyInserts: bool,
                 alone: bool)
      requires |counters| == 6 && forall r | r in source :: InSpan(r, Whole(c))
      requires onlyInserts ==> Within(target, Whole(c)) <= source
      ensures Valid() && Sound() && chunk == c && insertOnly == onlyInserts
      ensures src == source && tgt == target && entry == None && this.alone == alone
    {
      chunk, insertOnly, src, sig, tgt, entry := c, onlyInserts, source, counters, target, None;
      this.alone, elsewhere := alone, Outside(target, Whole(c));
    }

    function TargetRange(): set<Row>
      reads this
    {
      Within(tgt, Whole(chunk))
    }

    ghost predicate Valid()
      reads this
    {
      && |sig| == 6
      && (forall r | r in src :: InSpan(r, Whole(chunk)))
      && (insertOnly ==> TargetRange() <= src)
      && Outside(tgt, Whole(chunk)) == elsewhere
    }

    /** The record keeps its promise. */
    ghost predicate Sound()
      reads this
    {
      RecordFits(chunk, entry, src, sig, TargetRange())
    }

    /** The record keeps what is left of its promise after an interrupted copy. */
    ghost predicate Bounded()
      reads this
    {
      RecordBounds(chunk, entry, src, sig, TargetRange())
    }

    /**
     Any committed change of the source, which with insert-only writers is new rows and nothing else, and
     whatever other workers commit to the target outside the chunk.
     */
    method Writers()
      requires Valid()
      modifies this`src, this`sig, this`tgt, this`elsewhere
      ensures Valid() && TargetRange() == old(TargetRange())
      ensures alone ==> elsewhere == old(elsewhere)
      ensures Changes(old(src), old(sig), src, sig)
      ensures insertOnly ==> SameNonInserts(old(sig), sig)
    {
      var rows: set<Row>, counters: Signature := *, *;
      if && Changes(src, sig, rows, counters) && (insertOnly ==> SameNonInserts(sig, counters))
         && forall r | r in rows :: InSpan(r, Whole(chunk)) {
        src, sig := rows, counters;
      }
      var table: set<Row> := *;
      if !alone && Within(table, Whole(chunk)) == TargetRange() {
        tgt, elsewhere := table, Outside(table, Whole(chunk));
      }
    }

    /** `count(*)`, or -1 when every attempt was cancelled. */
    static method Count(rows: set<Row>, cancelled: bool) returns (n: int)
      ensures n == if cancelled then -1 else |rows|
    {
      n := if cancelled then -1 else |rows|;
    }

    /**
     DELETE window number `k`, then COPY a snapshot of the source into it, as two transactions; a restore
     from a dump may still raise afterwards. The chunk's rows outside the window stay. Once both went
     through, the window holds the source's rows as `snapshot` had them, and while only inserts come those
     are between the source before and the source now.
     */
    method CopyWindow(w: Span, k: nat, db: Db) returns (ok: bool, ghost snapshot: set<Row>)
      requires Valid() && chunk.rangeStart <= w.0 && w.1 <= chunk.rangeEnd
      modifies this`src, this`sig, this`tgt, this`elsewhere
      ensures Valid() && Changes(old(src), old(sig), src, sig)
      ensures insertOnly ==> SameNonInserts(old(sig), sig)
      ensures alone ==> elsewhere == old(elsewhere)
      ensures Seen(old(src), old(sig), snapshot, src, sig)
      ensures ok <==> Delete(k) !in db.raising && Copy(k) !in db.raising && Restore(k) !in db.raising
      ensures TargetRange() ==
        if Delete(k) in db.raising then old(TargetRange())
        else if Copy(k) in db.raising then Outside(old(TargetRange()), w)
        else Outside(old(TargetRange()), w) + Within(snapshot, w)
      ensures forall r | InSpan(r, Whole(chunk)) && !InSpan(r, w) :: r in tgt <==> r in old(tgt)
      ensures SameNonInserts(old(sig), sig) ==>
          forall r | InSpan(r, w) && r in tgt :: r in src || (!ok && r in old(tgt))
      ensures ok && SameNonInserts(old(sig), sig) ==> forall r | InSpan(r, w) && r in old(src) :: r in tgt
    {
      NothingChanges(src, sig);
      snapshot := src;
      if Delete(k) in db.raising {
        return false, snapshot;
      }
      tgt := Outside(tgt, w);
      ghost var kept := TargetRange();
      assert kept == Outside(old(TargetRange()), w);
      Writers();
      label Deleted:
      snapshot := src;
      var rows := Within(src, w);
      Writers();
      assert TargetRange() == kept && forall r | InSpan(r, Whole(chunk)) :: r in tgt <==> r in kept;
      ChangesCompose(old(src), old(sig), old@Deleted(src), old@Deleted(sig), src, sig);
      SeenAt(old(src), old(sig), snapshot, old@Deleted(sig), src, sig);
      SeenBounds(old(src), old(sig), snapshot, src, sig);
      if Copy(k) in db.raising {
        return false, snapshot;
      }
      tgt := tgt + rows;
      ok := Restore(k) !in db.raising;
    }

    /**
     Every window in turn, up to the first failure. Rows in no window stay; under inserts only, the
     range gains source rows only, and when all went through the windows match the source.
     */
    method CopyWindows(windows: seq<Span>, db: Db) returns (ok: bool)
      requires Valid()
      requires forall i | 0 <= i < |windows| :: chunk.rangeStart <= windows[i].0 && windows[i].1 <= chunk.rangeEnd
      modifies this`src, this`sig, this`tgt, this`elsewhere
      ensures Valid() && Changes(old(src), old(sig), src, sig)
      ensures insertOnly ==> SameNonInserts(old(sig), sig)
      ensures alone ==> elsewhere == old(elsewhere)
      ensures ok <==> AllCopied(|windows|, db)
      ensures forall r | InSpan(r, Whole(chunk)) && !Covered(windows, r) :: r in tgt <==> r in old(tgt)
      ensures SameNonInserts(old(sig), sig) ==> forall r | r in TargetRange() :: r in src || r in old(tgt)
      ensures ok && SameNonInserts(old(sig), sig) ==>
          forall r | Covered(windows, r) :: (r in tgt ==> r in src) && (r in old(src) ==> r in tgt)
    {
      NothingChanges(src, sig);
      var i := 0;
      while i < |windows|
        invariant 0 <= i <= |windows|
        invariant Valid() && Changes(old(src), old(sig), src, sig)
        invariant insertOnly ==> SameNonInserts(old(sig), sig)
        invariant alone ==> elsewhere == old(elsewhere)
        invariant AllCopied(i, db)
        invariant forall r | InSpan(r, Whole(chunk)) && !Covered(windows[..i], r) :: r in tgt <==> r in old(tgt)
        invariant SameNonInserts(old(sig), sig) ==> forall r | r in TargetRange() :: r in src || r in old(tgt)
        invariant SameNonInserts(old(sig), sig) ==>
            forall r | Covered(windows[..i], r) :: (r in tgt ==> r in src) && (r in old(src) ==> r in tgt)
      {
        label Before:
        ghost var snapshot;
        ok, snapshot := CopyWindow(windows[i], i, db);
        ChangesCompose(old(src), old(sig), old@Before(src), old@Before(sig), src, sig);
        CoveredByPrefix(windows, i);
        if !ok {
          return;
        }
        i := i + 1;
      }
      assert windows[..i] == windows;
      return true;
    }

    /** Rows per slice, or nothing after a cancelled query. */
    static method SliceQuery(c: Chunk, width: int, rows: set<Row>, cancelled: bool)
        returns (counts: Option<map<int, nat>>)
      requires width > 0
      ensures counts == if cancelled then None else Some(SliceCounts(c, width, rows))
    {
      counts := if cancelled then None else Some(SliceCounts(c, width, rows));
    }

    /**
     The windows to delete and copy: the whole chunk, or for a verified chunk that has only gained rows
     since, the slices whose counts differ between `counted`, the source at the slice query, and the
     target. Those cover every source row that the target lacks.
     */
    method ResyncWindows(opts: CopyOptions, prior: Option<Record>, before: Signature, tgtCount: int, db: Db)
        returns (plan: Outcome<seq<Span>>, ghost counted: set<Row>)
      requires Valid()
      modifies this`src, this`sig, this`tgt, this`elsewhere
      ensures Valid() && Changes(old(src), old(sig), src, sig)
      ensures TargetRange() == old(TargetRange()) && (alone ==> elsewhere == old(elsewhere))
      ensures insertOnly ==> SameNonInserts(old(sig), sig)
      ensures Seen(old(src), old(sig), counted, src, sig)
      ensures plan ==
        if opts.force || opts.dump || opts.sliceMinutes <= 0 || tgtCount <= 0
           || !InsertsOnlySince(chunk, prior, before) then Returned([Whole(chunk)])
        else if SliceSource in db.raising || SliceTarget in db.raising then Raised(IoError)
        else if SliceSource in db.cancelled || SliceTarget in db.cancelled then Returned([Whole(chunk)])
        else
          var width := opts.sliceMinutes * 60_000_000;
          Returned(MismatchedSlices(chunk, SliceCounts(chunk, width, counted),
                                    SliceCounts(chunk, width, TargetRange()), width))
      ensures plan.Returned? ==>
        forall i | 0 <= i < |plan.value| :: chunk.rangeStart <= plan.value[i].0 && plan.value[i].1 <= chunk.rangeEnd
      ensures (plan.Returned? && plan.value != [Whole(chunk)] && TargetRange() <= old(src)
               && SameNonInserts(old(sig), sig)) ==>
        forall r | r in old(src) :: r in tgt || Covered(plan.value, r)
    {
      NothingChanges(src, sig);
      counted := src;
      SeenAt(src, sig, counted, sig, src, sig);
      if opts.force || opts.dump || opts.sliceMinutes <= 0 || tgtCount <= 0 || !InsertsOnlySince(chunk, prior, before) {
        return Returned([Whole(chunk)]), counted;
      }
      if SliceSource in db.raising {
        return Raised(IoError), counted;
      }
      var width := opts.sliceMinutes * MINUTE;
      var srcCounts := SliceQuery(chunk, width, src, SliceSource in db.cancelled);
      Writers();
      SeenAt(old(src), old(sig), counted, old(sig), src, sig);
      if SliceTarget in db.raising {
        return Raised(IoError), counted;
      }
      var tgtCounts := SliceQuery(chunk, width, TargetRange(), SliceTarget in db.cancelled);
      if srcCounts == None || tgtCounts == None {
        return Returned([Whole(chunk)]), counted;
      }
      plan := Returned(MismatchedSlices(chunk, srcCounts.value, tgtCounts.value, width));
      CountsAreOfChunk(chunk, width, counted);
      CountsAreOfChunk(chunk, width, TargetRange());
      MismatchedSlicesAreExact(chunk, srcCounts.value, tgtCounts.value, width);
      if TargetRange() <= counted {
        forall r | r in counted ensures r in tgt || Covered(plan.value, r) {
          ResyncOfMismatchedIsEnough(chunk, width, counted, TargetRange(), r);
        }
      }
    }

    /**
     Plan and copy. While only inserts arrive, the range gains no foreign row even when the copy
     breaks off; a copy that goes through leaves the range between the source as it was at the start
     and the source as it is now, provided the windows are the whole chunk or the range had no
     foreign row to begin with.
     */
    method Resync(opts: CopyOptions, prior: Option<Record>, before: Signature, tgtCount: int, db: Db)
        returns (ok: bool, ghost plan: Outcome<seq<Span>>)
      requires Valid()
      modifies this`src, this`sig, this`tgt, this`elsewhere
      ensures Valid() && Changes(old(src), old(sig), src, sig)
      ensures insertOnly ==> SameNonInserts(old(sig), sig)
      ensures alone ==> elsewhere == old(elsewhere)
      ensures ok <==> plan.Returned? && AllCopied(|plan.value|, db)
      ensures Planned(plan, opts, prior, before, tgtCount, db)
      ensures SameNonInserts(old(sig), sig) && old(TargetRange() <= src) ==> TargetRange() <= src
      ensures (ok && SameNonInserts(old(sig), sig)
               && (old(TargetRange() <= src) || !InsertsOnlySince(chunk, prior, before))) ==>
        old(src) <= TargetRange() <= src
    {
      ghost var counted;
      var windows;
      windows, counted := ResyncWindows(opts, prior, before, tgtCount, db);
      plan := windows;
      SeenBounds(old(src), old(sig), counted, src, sig);
      if windows.Raised? {
        return false, plan;
      }
      label Planned:
      ok := CopyWindows(windows.value, db);
      ChangesCompose(old(src), old(sig), old@Planned(src), old@Planned(sig), src, sig);
      InsideTheChunk(chunk, windows.value);
      if windows.value == [Whole(chunk)] {
        assert forall r | InSpan(r, Whole(chunk)) :: InSpan(r, windows.value[0]);
        assert forall r | InSpan(r, Whole(chunk)) :: Covered(windows.value, r);
      }
    }

    /** The plan raised exactly when a slice query that was due did; what is not sliced is copied whole. */
    predicate Planned(plan: Outcome<seq<Span>>, opts: CopyOptions, prior: Option<Record>, before: Signature,
                      tgtCount: int, db: Db)
    {
      var sliced := !opts.force && !opts.dump && opts.sliceMinutes > 0 && tgtCount > 0
                    && InsertsOnlySince(chunk, prior, before);
      && (plan.Raised? <==> sliced && (SliceSource in db.raising || SliceTarget in db.raising))
      && (!sliced ==> plan == Returned([Whole(chunk)]))
    }

    /**
     The counts that decide whether to skip, taken after the signature. `counted` is the source at its
     count. A skip is decided exactly when both counts are known and equal, unless forced; it knows the
     true number of target rows, and is right exactly when the range holds no row the source lacked.
     */
    method CountBoth(force: bool, db: Db)
        returns (srcCount: int, tgtCount: int, skip: bool, ok: bool, ghost counted: set<Row>)
      requires Valid()
      modifies this`src, this`sig, this`tgt, this`elsewhere
      ensures Valid() && Changes(old(src), old(sig), src, sig)
      ensures TargetRange() == old(TargetRange()) && (alone ==> elsewhere == old(elsewhere))
      ensures insertOnly ==> SameNonInserts(old(sig), sig)
      ensures Seen(old(src), old(sig), counted, src, sig)
      ensures ok <==> CountSource !in db.raising && CountTarget !in db.raising
      ensures ok ==> srcCount == if CountSource in db.cancelled then -1 else |counted|
      ensures ok ==> tgtCount == if CountTarget in db.cancelled then -1 else |TargetRange()|
      ensures skip <==>
        && ok && !force && CountSource !in db.cancelled && CountTarget !in db.cancelled
        && |counted| == |TargetRange()|
      ensures skip && SameNonInserts(old(sig), sig) ==> (TargetRange() == old(src) <==> TargetRange() <= old(src))
      ensures skip && insertOnly ==> old(src) <= TargetRange()
    {
      srcCount, tgtCount, skip, ok := -1, -1, false, false;
      Writers();
      label Counting:
      counted := src;
      NothingChanges(src, sig);
      SeenAt(old(src), old(sig), counted, sig, src, sig);
      if CountSource in db.raising {
        return;
      }
      srcCount := Count(src, CountSource in db.cancelled);
      Writers();
      ChangesCompose(old(src), old(sig), old@Counting(src), old@Counting(sig), src, sig);
      SeenAt(old(src), old(sig), counted, old@Counting(sig), src, sig);
      SeenBounds(old(src), old(sig), counted, src, sig);
      if CountTarget in db.raising {
        return;
      }
      tgtCount := Count(TargetRange(), CountTarget in db.cancelled);
      ok := true;
      skip := !force && ChunkRowCountsMatch(srcCount, tgtCount);
      if skip && TargetRange() <= counted {
        SubsetOfEqualSize(TargetRange(), counted);
      }
    }

    /**
     Recount the target and, with `--verify`, the source. `last` is the source at that final recount; a
     return means that both counts are known and, if verified, equal.
     */
    method RecountBoth(verify: bool, db: Db) returns (rows: Outcome<int>, ghost last: set<Row>)
      requires Valid()
      modifies this`src, this`sig, this`tgt, this`elsewhere
      ensures Valid() && Changes(old(src), old(sig), src, sig)
      ensures TargetRange() == old(TargetRange()) && (alone ==> elsewhere == old(elsewhere))
      ensures insertOnly ==> SameNonInserts(old(sig), sig)
      ensures Seen(old(src), old(sig), last, src, sig)
      ensures rows.Returned? ==> rows.value == |TargetRange()|
      ensures rows.Returned? <==>
        && Recount !in db.raising && Recount !in db.cancelled
        && (verify ==>
              RecountSource !in db.raising && RecountSource !in db.cancelled && |last| == |TargetRange()|)
    {
      hide SameNonInserts, Seen;
      Writers();
      NothingChanges(src, sig);
      last := src;
      SeenAt(old(src), old(sig), last, sig, src, sig);
      if Recount in db.raising {
        return Raised(IoError), last;
      }
      var count := Count(TargetRange(), Recount in db.cancelled);
      if verify {
        label Verifying:
        Writers();
        ChangesCompose(old(src), old(sig), old@Verifying(src), old@Verifying(sig), src, sig);
        NothingChanges(src, sig);
        last := src;
        SeenAt(old(src), old(sig), last, sig, src, sig);
        if RecountSource in db.raising {
          return Raised(IoError), last;
        }
        var srcAfter := Count(src, RecountSource in db.cancelled);
        if !ChunkRowCountsMatch(srcAfter, count) {
          return Raised(RuntimeError), last;
        }
      }
      if count < 0 {
        return Raised(RuntimeError), last;
      }
      return Returned(count), last;
    }

    /**
     Resync, recount and, with `--verify`, recount the source too. `last` is the source at that final
     recount: a verified copy without foreign rows equals it.
     */
    method CopyAndRecount(opts: CopyOptions, prior: Option<Record>, before: Signature, tgtCount: int, db: Db)
        returns (rows: Outcome<int>, ghost plan: Outcome<seq<Span>>, ghost last: set<Row>)
      requires Valid()
      modifies this`src, this`sig, this`tgt, this`elsewhere
      ensures Valid() && Changes(old(src), old(sig), src, sig)
      ensures insertOnly ==> SameNonInserts(old(sig), sig)
      ensures alone ==> elsewhere == old(elsewhere)
      ensures Seen(old(src), old(sig), last, src, sig)
      ensures Decompress !in db.raising ==> Planned(plan, opts, prior, before, tgtCount, db)
      ensures rows.Returned? <==>
        && Decompress !in db.raising && plan.Returned? && AllCopied(|plan.value|, db)
        && Recount !in db.raising && Recount !in db.cancelled
        && (opts.verify ==>
              RecountSource !in db.raising && RecountSource !in db.cancelled && |last| == |TargetRange()|)
      ensures SameNonInserts(old(sig), sig) && old(TargetRange() <= src) ==> TargetRange() <= src
      ensures rows.Returned? ==> rows.value == |TargetRange()|
      ensures (rows.Returned? && SameNonInserts(old(sig), sig)
               && (old(TargetRange() <= src) || !InsertsOnlySince(chunk, prior, before))) ==>
        old(src) <= TargetRange() <= src
      ensures SameNonInserts(old(sig), sig) ==> old(src) <= last <= src
      ensures rows.Returned? && insertOnly ==> TargetRange() <= last
    {
      hide Changes, Seen, SameNonInserts, AllCopied, Planned, InsertsOnlySince;
      last := src;
      NothingChanges(src, sig);
      SeenAt(src, sig, last, sig, src, sig);
      plan := Raised(IoError);
      if Decompress in db.raising {
        return Raised(IoError), plan, last;
      }
      var ok;
      ok, plan := Resync(opts, prior, before, tgtCount, db);
      if !ok {
        NothingChanges(src, sig);
        last := src;
        SeenAt(old(src), old(sig), last, sig, src, sig);
        SeenBounds(old(src), old(sig), last, src, sig);
        return Raised(IoError), plan, last;
      }
      label Resynced:
      rows, last := RecountBoth(opts.verify, db);
      SeenBounds(old@Resynced(src), old@Resynced(sig), last, src, sig);
      InsertsGrow(old@Resynced(src), old@Resynced(sig), src, sig);
      ChangesCompose(old(src), old(sig), old@Resynced(src), old@Resynced(sig), src, sig);
      NothingChanges(src, sig);
      SeenWithin(old(src), old(sig), old@Resynced(src), old@Resynced(sig), last, src, sig, src, sig);
      SeenBounds(old(src), old(sig), last, src, sig);
    }

    /**
     One examination of the chunk. It reports the signature read before anything else, if the chunk was
     found, and skips exactly when, unless forced, both counts are known and equal. `base` is the source
     as it was when the signature was read, `counted` at its count. A normal return reports the true
     number of target rows; after a copy the range lies between `base` and the present source, so it
     equals the source when no write followed the signature; after a skip it equals `base` exactly when
     it held no stale row. A verified copy beside insert-only writers equals `last`, the source at a
     moment during the call.
     */
    method CopyOneChunk(opts: CopyOptions, prior: Option<Record>, db: Db)
        returns (result: Outcome<ChunkResult>, ghost base: set<Row>, ghost counted: set<Row>,
                 ghost plan: Outcome<seq<Span>>, ghost last: set<Row>)
      requires Valid() && RecordBounds(chunk, prior, src, sig, TargetRange())
      modifies this`src, this`sig, this`tgt, this`elsewhere
      ensures Valid() && Changes(old(src), old(sig), src, sig)
      ensures insertOnly ==> SameNonInserts(old(sig), sig)
      ensures alone ==> elsewhere == old(elsewhere)
      ensures SameNonInserts(old(sig), sig) && old(TargetRange() <= src) ==> TargetRange() <= src
      ensures result.Returned? ==> result.value.rows == |TargetRange()|
      ensures result.Returned? ==> result.value.sig == if db.found then old(sig) else []
      ensures Seen(old(src), old(sig), counted, src, sig)
      ensures var skip :=
          && !opts.force && CountSource !in db.cancelled && CountTarget !in db.cancelled
          && |counted| == |old(TargetRange())|;
        && (Connect !in db.raising && ReadSignature !in db.raising && CountSource !in db.raising
            && CountTarget !in db.raising && !skip && Decompress !in db.raising ==>
              Planned(plan, opts, prior, if db.found then old(sig) else [],
                      if CountTarget in db.cancelled then -1 else |old(TargetRange())|, db))
        && (result.Returned? ==> (result.value.outcome.Skipped? <==> skip))
        && (result.Returned? <==>
              && Connect !in db.raising && ReadSignature !in db.raising
              && CountSource !in db.raising && CountTarget !in db.raising && Compress !in db.raising
              && (!skip ==>
                    && Decompress !in db.raising && plan.Returned? && AllCopied(|plan.value|, db)
                    && Recount !in db.raising && Recount !in db.cancelled
                    && (opts.verify ==>
                          && RecountSource !in db.raising && RecountSource !in db.cancelled
                          && |last| == |TargetRange()|)))
      ensures result.Returned? && |result.value.sig| == 6 ==> Changes(base, result.value.sig, src, sig)
      ensures result.Returned? && result.value.outcome.Copied? && SameNonInserts(result.value.sig, sig) ==>
        base <= TargetRange() <= src
      ensures result.Returned? && result.value.outcome.Skipped? ==> TargetRange() == old(TargetRange())
      ensures result.Returned? && result.value.outcome.Skipped? && SameNonInserts(result.value.sig, sig) ==>
        (TargetRange() == base <==> TargetRange() <= base)
      ensures result.Returned? && insertOnly ==> base <= TargetRange() <= src
      ensures base == old(src)
      ensures insertOnly ==> Examination(old(src), old(sig), result, src, sig, TargetRange())
      ensures result.Returned? && result.value.outcome.Copied? && opts.verify && insertOnly ==>
        old(src) <= last <= src && TargetRange() == last
    {
      hide Seen, Changes, SameNonInserts, AllCopied, Planned, InsertsOnlySince, RecordBounds;
      UnknownSignature();
      base, counted, plan, last := src, src, Raised(IoError), src;
      NothingChanges(src, sig);
      SeenAt(src, sig, counted, sig, src, sig);
      if Connect in db.raising || ReadSignature in db.raising {
        return Raised(IoError), base, counted, plan, last;
      }
      var before: Signature := if db.found then sig else [];
      var srcCount, tgtCount, skip, ok;
      srcCount, tgtCount, skip, ok, counted := CountBoth(opts.force, db);
      if !ok {
        return Raised(IoError), base, counted, plan, last;
      }
      if skip {
        if Compress in db.raising {
          return Raised(IoError), base, counted, plan, last;
        }
        result := Returned(ChunkResult(Skipped, srcCount, before));
        assert insertOnly && |before| == 6 ==> InSyncWith(base, result.value, src, sig, TargetRange());
        return result, base, counted, plan, last;
      }
      label Copying:
      BoundsSurviveWriters(chunk, prior, old(src), old(sig), src, sig, TargetRange());
      RangeIsBounded(chunk, prior, before, src, sig, TargetRange());
      InsertsGrow(old(src), old(sig), src, sig);
      NothingChanges(old(src), old(sig));
      var rows;
      rows, plan, last := CopyAndRecount(opts, prior, before, tgtCount, db);
      SeenWithin(old(src), old(sig), old(src), old(sig), counted, old@Copying(src), old@Copying(sig), src, sig);
      ChangesCompose(old(src), old(sig), old@Copying(src), old@Copying(sig), src, sig);
      if rows.Raised? {
        return Raised(rows.error), base, counted, plan, last;
      }
      if opts.verify && TargetRange() <= last {
        SubsetOfEqualSize(TargetRange(), last);
      }
      if Compress in db.raising {
        return Raised(IoError), base, counted, plan, last;
      }
      result := Returned(ChunkResult(Copied, rows.value, before));
      assert insertOnly && |before| == 6 ==> InSyncWith(base, result.value, src, sig, TargetRange());
    }

    /**
     One run over the chunk. With `--changed-only` a record that matches the listed signature is believed;
     otherwise the chunk is examined and the record replaced, or dropped when the examination raised. The
     new record names the rows of the target and the signature read first, so when nothing is written
     meanwhile the next run believes it.
     A run may also be killed during the examination and leave the old record behind; that record is as
     good as after any interrupted copy, and sound when it did not match before. `stale` says that the
     counts agreed although the range held rows the source lacked. Otherwise the run keeps a sound record
     sound, and one that examines also repairs a record that an interrupted copy made lie.
     */
    method Pass(opts: CopyOptions, changedOnly: bool, db: Db)
        returns (outcome: PassOutcome, ghost result: Outcome<ChunkResult>, ghost stale: bool)
      requires Valid() && Bounded()
      modifies this`src, this`sig, this`tgt, this`elsewhere, this`entry
      ensures Valid() && Changes(old(src), old(sig), src, sig)
      ensures insertOnly ==> SameNonInserts(old(sig), sig) && !stale
      ensures alone ==> elsewhere == old(elsewhere)
      ensures outcome ==
        if changedOnly && db.listed && ChunkUnchangedSinceState(chunk, old(entry), Some(old(sig))) then Unchanged
        else if db.killed then Killed
        else Examined
      ensures outcome.Examined? ==>
        if result.Raised? then entry == None
        else
          && entry == Some(Record(chunk.rangeStart, chunk.rangeEnd, |TargetRange()|, result.value.sig))
          && (!db.found ==> result.value.sig == [])
          && (db.found && sig == old(sig) ==> ChunkUnchangedSinceState(chunk, entry, Some(sig)))
      ensures !stale ==> Bounded()
      ensures outcome.Unchanged? ==> (old(Sound()) ==> Sound())
      ensures outcome.Examined? && !stale ==> Sound()
      ensures outcome.Killed? ==>
        && entry == old(entry)
        && (Sound() <==>
              || !ChunkUnchangedSinceState(chunk, entry, Some(old(sig)))
              || sig != old(sig) || TargetRange() == src)
      ensures outcome.Unchanged? ==> tgt == old(tgt) && entry == old(entry)
      ensures outcome.Unchanged? && old(Sound()) ==> TargetRange() == old(src)
      ensures stale ==> outcome.Examined? && TargetRange() == old(TargetRange()) && !opts.force
    {
      hide Changes, SameNonInserts, RecordBounds, RecordFits, Examination, InsertsOnlySince, Seen, AllCopied;
      stale, result := false, Raised(IoError);
      if changedOnly && ChunkUnchangedSinceState(chunk, entry, if db.listed then Some(sig) else None) {
        NothingChanges(src, sig);
        BoundedRecordFitsIff(chunk, entry, src, sig, TargetRange());
        return Unchanged, result, stale;
      }
      Writers();
      BoundsSurviveWriters(chunk, entry, old(src), old(sig), src, sig, TargetRange());
      label Examining:
      ghost var base, counted, plan, last;
      var examined;
      examined, base, counted, plan, last := CopyOneChunk(opts, entry, db);
      result := examined;
      ChangesCompose(old(src), old(sig), old@Examining(src), old@Examining(sig), src, sig);
      if db.killed {
        BoundsSurviveCopy(chunk, entry, old(src), old(sig), old(TargetRange()), src, sig, TargetRange());
        BoundedRecordFitsIff(chunk, entry, src, sig, TargetRange());
        MatchesOnlyTheFirst(chunk, entry, old(src), old(sig), old(TargetRange()), src, sig);
        return Killed, result, stale;
      }
      NoCounterMovedBetween(old(src), old(sig), old@Examining(src), old@Examining(sig), src, sig);
      if examined.Raised? {
        entry := None;
      } else {
        stale := examined.value.outcome.Skipped? && !(TargetRange() <= base);
        if !stale {
          NewRecordFits(chunk, examined.value, base, src, sig, TargetRange());
        }
        entry := Some(StateEntry(chunk, examined.value));
      }
      RecordFitsIsBounded(chunk, entry, src, sig, TargetRange());
      outcome := Examined;
    }

    /**
     A run without a state file: nothing is known before and nothing recorded after, so the record of
     an earlier run stays as it is. Beside insert-only writers a record that was sound is so afterwards,
     unless it matched the counters at the start, nothing has been written since, and the range is not
     what the source is: that takes an interrupted copy.
     */
    method UnrecordedPass(opts: CopyOptions, db: Db) returns (result: Outcome<ChunkResult>)
      requires Valid() && Bounded()
      modifies this`src, this`sig, this`tgt, this`elsewhere
      ensures Valid() && Changes(old(src), old(sig), src, sig)
      ensures insertOnly ==> SameNonInserts(old(sig), sig) && Bounded()
      ensures alone ==> elsewhere == old(elsewhere)
      ensures result.Returned? ==> result.value.rows == |TargetRange()|
      ensures db.raising == {} && db.cancelled == {} && !opts.verify ==> result.Returned?
      ensures insertOnly && result.Returned? ==> old(src) <= TargetRange() && Sound()
      ensures insertOnly ==>
        (Sound() <==>
          || !ChunkUnchangedSinceState(chunk, entry, Some(old(sig)))
          || sig != old(sig) || TargetRange() == src)
      ensures insertOnly && (!ChunkUnchangedSinceState(chunk, entry, Some(old(sig))) || old(src) == {}) ==> Sound()
    {
      ghost var base, counted, plan, last;
      result, base, counted, plan, last := CopyOneChunk(opts, None, db);
      BoundsSurviveCopy(chunk, entry, old(src), old(sig), old(TargetRange()), src, sig, TargetRange());
      if insertOnly {
        BoundedRecordFitsIff(chunk, entry, src, sig, TargetRange());
        MatchesOnlyTheFirst(chunk, entry, old(src), old(sig), old(TargetRange()), src, sig);
      }
    }

    /**
     Any number of runs, with any options, with or without a state file, beside insert-only writers. The
     range is always part of the source. The record is in doubt from a run that was killed, or that raised
     without a state file, while the record matched, until the next run that examines the chunk; otherwise
     a record that matches the source's counters means the two are equal. `cut` says that a run with a
     state file was killed while the record matched.
     */
    method Passes(runs: seq<Run>) returns (doubt: bool, cut: bool)
      requires Valid() && Sound() && insertOnly
      modifies this`src, this`sig, this`tgt, this`elsewhere, this`entry
      ensures Valid() && TargetRange() <= src
      ensures alone ==> elsewhere == old(elsewhere)
      ensures !doubt ==> Sound() && (ChunkUnchangedSinceState(chunk, entry, Some(sig)) ==> TargetRange() == src)
      ensures cut ==> exists r :: r in runs && r.Recorded? && r.db.killed
      ensures !cut && (forall r | r in runs :: r.Recorded?) ==> !doubt
      ensures (forall r | r in runs :: r.Recorded? && !r.db.killed) ==> !doubt
    {
      doubt, cut := false, false;
      var i := 0;
      while i < |runs|
        invariant 0 <= i <= |runs|
        invariant Valid() && Bounded() && (!doubt ==> Sound())
        invariant cut ==> exists r :: r in runs && r.Recorded? && r.db.killed
        invariant !cut && (forall r | r in runs :: r.Recorded?) ==> !doubt
        invariant alone ==> elsewhere == old(elsewhere)
      {
        Idle();
        var matched := ChunkUnchangedSinceState(chunk, entry, Some(sig));
        assert runs[i] in runs;
        match runs[i] {
          case Recorded(opts, changedOnly, db) =>
            ghost var examined, stale;
            var outcome;
            outcome, examined, stale := Pass(opts, changedOnly, db);
            doubt := match outcome
              case Unchanged => doubt
              case Examined => false
              case Killed => matched;
            cut := cut || (outcome.Killed? && matched);
          case Unrecorded(opts, db) =>
            var result := UnrecordedPass(opts, db);
            doubt := result.Raised? && matched;
        }
        i := i + 1;
      }
      Idle();
    }

    /** The time between two runs. */
    method Idle()
      requires Valid() && Bounded()
      modifies this`src, this`sig, this`tgt, this`elsewhere
      ensures Valid() && Bounded() && (old(Sound()) ==> Sound())
      ensures alone ==> elsewhere == old(elsewhere)
    {
      Writers();
      BoundsSurviveWriters(chunk, entry, old(src), old(sig), src, sig, TargetRange());
      if RecordFits(chunk, entry, old(src), old(sig), TargetRange()) {
        RecordSurvivesWriters(chunk, entry, old(src), old(sig), src, sig, TargetRange());
      }
    }
  }

  /** All windows were deleted, copied and restored without a raise. */
  predicate AllCopied(n: nat, db: Db) {
    forall k: nat | k < n :: Delete(k) !in db.raising && Copy(k) !in db.raising && Restore(k) !in db.raising
  }

  /** When the counters are at the end where they were at the start, they have not moved in between. */
  lemma NoCounterMovedBetween(src0: set<Row>, sig0: Signature, mid: set<Row>, counters: Signature,
                              src1: set<Row>, sig1: Signature)
    requires Changes(src0, sig0, mid, counters) && Changes(mid, counters, src1, sig1)
    ensures sig0 == sig1 ==> counters == sig0
  {
  }

  lemma InsideTheChunk(c: Chunk, windows: seq<Span>)
    requires forall i | 0 <= i < |windows| :: c.rangeStart <= windows[i].0 && windows[i].1 <= c.rangeEnd
    ensures forall r | Covered(windows, r) :: InSpan(r, Whole(c))
  {
  }

  lemma CoveredByPrefix(windows: seq<Span>, i: nat)
    requires i < |windows|
    ensures forall r :: Covered(windows[..i + 1], r) <==> Covered(windows[..i], r) || InSpan(r, windows[i])
    ensures forall r :: Covered(windows[..i + 1], r) ==> Covered(windows, r)
  {
    forall r ensures Covered(windows[..i + 1], r) <==> Covered(windows[..i], r) || InSpan(r, windows[i]) {
      if InSpan(r, windows[i]) {
        assert InSpan(r, windows[..i + 1][i]);
      }
      if Covered(windows[..i], r) {
        var j :| 0 <= j < i && InSpan(r, windows[..i][j]);
        assert InSpan(r, windows[..i + 1][j]);
      }
      if Covered(windows[..i + 1], r) && !InSpan(r, windows[i]) {
        var j :| 0 <= j < i + 1 && InSpan(r, windows[..i + 1][j]);
        assert InSpan(r, windows[..i][j]);
      }
    }
    forall r | Covered(windows[..i + 1], r) ensures Covered(windows, r) {
      var j :| 0 <= j < i + 1 && InSpan(r, windows[..i + 1][j]);
      assert InSpan(r, windows[j]);
    }
  }
}
