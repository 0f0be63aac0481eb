/** A run over many chunks: results are folded into the state in the order in which workers finish. */
module ChunkRun {
  import opened Wrappers
  import opened ChunkTables

  type Records = map<string, Record>

  /** A finished future: its chunk, and what `copy_one_chunk` returned or raised. */
  datatype Finished = Finished(chunk: Chunk, result: Outcome<ChunkResult>)

  datatype RunSummary = RunSummary(untouched: int, skipped: nat, copied: nat, failed: nat, rowsTotal: int)

  // ---- what a run means ---------------------------------------------------

  function Fold(state: Records, f: Finished): Records {
    if f.result.Raised? then state - {f.chunk.name} else state[f.chunk.name := StateEntry(f.chunk, f.result.value)]
  }

  function FoldAll(state: Records, done: seq<Finished>): Records {
    if done == [] then state else Fold(FoldAll(state, done[..|done| - 1]), done[|done| - 1])
  }

  function Add(t: RunSummary, f: Finished): RunSummary {
    match f.result
    case Raised(_) => t.(failed := t.failed + 1)
    case Returned(r) =>
      if r.outcome.Skipped? then
        t.(skipped := t.skipped + 1, rowsTotal := t.rowsTotal + r.rows)
      else
        t.(copied := t.copied + 1, rowsTotal := t.rowsTotal + r.rows)
  }

  function Summarise(untouched: int, done: seq<Finished>): RunSummary {
    if done == [] then RunSummary(untouched, 0, 0, 0, 0)
      else Add(Summarise(untouched, done[..|done| - 1]), done[|done| - 1])
  }

  predicate DistinctChunks(done: seq<Finished>) {
    forall i, j | 0 <= i < j < |done| :: done[i].chunk.name != done[j].chunk.name
  }

  /** The state agrees with the initial one except on finished chunks, which have exactly the record they earned. */
  ghost predicate Reflects(before: Records, done: seq<Finished>, after: Records) {
    && (forall name | name !in Names(done) ::
      (name in after <==> name in before) && (name in after ==> after[name] == before[name]))
    && (forall f | f in done ::
          if f.result.Raised? then f.chunk.name !in after
          else
            && f.chunk.name in after
            && after[f.chunk.name] ==
                 Record(f.chunk.rangeStart, f.chunk.rangeEnd, f.result.value.rows, f.result.value.sig))
  }

  function Names(done: seq<Finished>): set<string> {
    set f | f in done :: f.chunk.name
  }

  lemma {:induction false} FoldReflects(state: Records, done: seq<Finished>)
    requires DistinctChunks(done)
    ensures Reflects(state, done, FoldAll(state, done))
  {
    hide Reflects, Fold;
    if done == [] {
      NothingReflected(state);
    } else {
      var front, last := done[..|done| - 1], done[|done| - 1];
      FoldReflects(state, front);
      assert done == front + [last];
      forall f | f in front ensures f.chunk.name != last.chunk.name {
        var i :| 0 <= i < |front| && front[i] == f;
        assert done[i] == f;
      }
      OneMoreReflected(state, front, FoldAll(state, front), last);
    }
  }

  lemma NothingReflected(state: Records)
    ensures Reflects(state, [], state)
  {
  }

  lemma OneMoreReflected(before: Records, front: seq<Finished>, mid: Records, last: Finished)
    requires Reflects(before, front, mid) && forall f | f in front :: f.chunk.name != last.chunk.name
    ensures Reflects(before, front + [last], Fold(mid, last))
  {
    assert Names(front + [last]) == Names(front) + {last.chunk.name};
    forall f | f in front + [last] ensures f in front || f == last {
    }
  }

  lemma ReflectedStateIsUnique(before: Records, done: seq<Finished>, done': seq<Finished>, a: Records, b: Records)
    requires multiset(done) == multiset(done')
    requires Reflects(before, done, a) && Reflects(before, done', b)
    ensures a == b
  {
    assert forall f :: f in done <==> f in multiset(done);
    assert forall f :: f in done' <==> f in multiset(done');
    assert Names(done) == Names(done');
    forall name ensures (name in a <==> name in b) && (name in a ==> a[name] == b[name]) {
      if name in Names(done) {
        var f :| f in done && f.chunk.name == name;
        assert f in done';
      }
    }
  }

  // ---- order does not matter ----------------------------------------------

  lemma AddCommutes(t: RunSummary, f: Finished, g: Finished)
    ensures Add(Add(t, f), g) == Add(Add(t, g), f)
  {
  }

  /** Moving one item to the end changes no total. */
  lemma {:induction false} SummariseMovesToEnd(untouched: int, done: seq<Finished>, k: nat)
    requires k < |done|
    ensures Summarise(untouched, done) == Add(Summarise(untouched, done[..k] + done[k + 1..]), done[k])
    decreases |done|
  {
    var front, last := done[..|done| - 1], done[|done| - 1];
    if k == |done| - 1 {
      assert done[..k] + done[k + 1..] == front;
    } else {
      SummariseMovesToEnd(untouched, front, k);
      var without := done[..k] + done[k + 1..];
      assert without[..|without| - 1] == front[..k] + front[k + 1..];
      assert without[|without| - 1] == last;
      AddCommutes(Summarise(untouched, front[..k] + front[k + 1..]), done[k], last);
    }
  }

  lemma RemoveOne(a: seq<Finished>, x: Finished, b: seq<Finished>)
    ensures multiset(a + [x] + b) == multiset(a + b) + multiset{x}
  {
  }

  lemma Cancel(a: multiset<Finished>, b: multiset<Finished>, x: Finished)
    requires a + multiset{x} == b + multiset{x}
    ensures a == b
  {
    assert a == a + multiset{x} - multiset{x};
    assert b == b + multiset{x} - multiset{x};
  }

  lemma {:induction false} SummaryIgnoresOrder(untouched: int, done: seq<Finished>, done': seq<Finished>)
    requires multiset(done) == multiset(done')
    ensures Summarise(untouched, done) == Summarise(untouched, done')
    decreases |done|
  {
    assert |done| == |multiset(done)| == |multiset(done')| == |done'|;
    if done != [] {
      var front, last := done[..|done| - 1], done[|done| - 1];
      assert done == front + [last];
      assert last in multiset(done');
      var k :| 0 <= k < |done'| && done'[k] == last;
      var rest := done'[..k] + done'[k + 1..];
      assert done' == done'[..k] + [last] + done'[k + 1..];
      RemoveOne(done'[..k], last, done'[k + 1..]);
      assert multiset(done) == multiset(front) + multiset{last};
      assert multiset(rest) + multiset{last} == multiset(front) + multiset{last};
      Cancel(multiset(rest), multiset(front), last);
      SummaryIgnoresOrder(untouched, front, rest);
      SummariseMovesToEnd(untouched, done', k);
    }
  }

  /** Whatever the order in which the workers finish, the run ends with the same state and the same summary. */
  lemma CompletionOrderDoesNotMatter(state: Records, untouched: int, done: seq<Finished>, done': seq<Finished>)
    requires multiset(done) == multiset(done') && DistinctChunks(done) && DistinctChunks(done')
    ensures FoldAll(state, done) == FoldAll(state, done')
    ensures Summarise(untouched, done) == Summarise(untouched, done')
  {
    FoldReflects(state, done);
    FoldReflects(state, done');
    ReflectedStateIsUnique(state, done, done', FoldAll(state, done), FoldAll(state, done'));
    SummaryIgnoresOrder(untouched, done, done');
  }

  /** With the same chunk finished twice the order does matter, which is why the names must differ. */
  lemma RepeatedChunkDependsOnOrder(c: Chunk, r: ChunkResult)
    ensures var ok, bad := Finished(c, Returned(r)), Finished(c, Raised(IoError));
      multiset([ok, bad]) == multiset([bad, ok]) && FoldAll(map[], [ok, bad]) != FoldAll(map[], [bad, ok])
  {
    var ok, bad := Finished(c, Returned(r)), Finished(c, Raised(IoError));
    assert [ok, bad][..1] == [ok] && [bad, ok][..1] == [bad] && [ok][..0] == [] && [bad][..0] == [];
    assert c.name !in FoldAll(map[], [ok, bad]);
    assert c.name in FoldAll(map[], [bad, ok]);
  }

  function VerifiedRows(done: seq<Finished>): int {
    if done == [] then 0
    else VerifiedRows(done[..|done| - 1]) +
         (if done[|done| - 1].result.Returned? then done[|done| - 1].result.value.rows else 0)
  }

  predicate WasSkipped(f: Finished) {
    f.result.Returned? && f.result.value.outcome.Skipped?
  }

  predicate WasCopied(f: Finished) {
    f.result.Returned? && f.result.value.outcome.Copied?
  }

  predicate HasFailed(f: Finished) {
    f.result.Raised?
  }

  /**
   Each counter says how many chunks came to its outcome, so together they count every chunk once; the
   rows are those of the chunks that did not fail.
   */
  ghost predicate Counts(t: RunSummary, untouched: int, done: seq<Finished>) {
    && t.untouched == untouched
    && t.skipped == |set i: nat | i < |done| && done[i].result.Returned? && done[i].result.value.outcome.Skipped?|
    && t.copied == |set i: nat | i < |done| && done[i].result.Returned? && done[i].result.value.outcome.Copied?|
    && t.failed == |set i: nat | i < |done| && done[i].result.Raised?|
    && t.skipped + t.copied + t.failed == |done|
    && t.rowsTotal == VerifiedRows(done)
  }

  lemma {:induction false} EveryChunkIsCounted(untouched: int, done: seq<Finished>)
    ensures Counts(Summarise(untouched, done), untouched, done)
  {
    if done != [] {
      var front, n := done[..|done| - 1], |done| - 1;
      EveryChunkIsCounted(untouched, front);
      OneMorePosition(done, WasSkipped);
      OneMorePosition(done, WasCopied);
      OneMorePosition(done, HasFailed);
      PositionsOf(front);
      PositionsOf(done);
    }
  }

  function Positions(done: seq<Finished>, came: Finished -> bool): set<nat> {
    set i: nat | i < |done| && came(done[i])
  }

  lemma OneMorePosition(done: seq<Finished>, came: Finished -> bool)
    requires done != []
    ensures |Positions(done, came)| ==
      |Positions(done[..|done| - 1], came)| + if came(done[|done| - 1]) then 1 else 0
  {
    var n := |done| - 1;
    var front := Positions(done[..n], came);
    assert Positions(done, came) == if came(done[n]) then front + {n} else front;
  }

  lemma PositionsOf(done: seq<Finished>)
    ensures Positions(done, WasSkipped) ==
      set i: nat | i < |done| && done[i].result.Returned? && done[i].result.value.outcome.Skipped?
    ensures Positions(done, WasCopied) ==
      set i: nat | i < |done| && done[i].result.Returned? && done[i].result.value.outcome.Copied?
    ensures Positions(done, HasFailed) == set i: nat | i < |done| && done[i].result.Raised?
  {
  }

  // ---- the run ------------------------------------------------------------

  /** The `--state-file` dictionary and every version of it written to disk. */
  class StateFile {
    var records: Records
    var saved: seq<Records>

    constructor (initial: Records)
      ensures records == initial && saved == []
    {
      records, saved := initial, [];
    }
  }

  /** The state after each completion. */
  function Saves(state: Records, done: seq<Finished>): seq<Records> {
    if done == [] then [] else Saves(state, done[..|done| - 1]) + [FoldAll(state, done)]
  }

  lemma NothingFolded(state: Records, untouched: int)
    ensures FoldAll(state, []) == state && Summarise(untouched, []) == RunSummary(untouched, 0, 0, 0, 0)
    ensures Saves(state, []) == []
  {
  }

  lemma OneMoreFolded(state: Records, untouched: int, done: seq<Finished>, k: nat)
    requires k < |done|
    ensures FoldAll(state, done[..k + 1]) == Fold(FoldAll(state, done[..k]), done[k])
    ensures Summarise(untouched, done[..k + 1]) == Add(Summarise(untouched, done[..k]), done[k])
    ensures Saves(state, done[..k + 1]) == Saves(state, done[..k]) + [FoldAll(state, done[..k + 1])]
  {
    assert done[..k + 1][..k] == done[..k];
  }

  /** The main thread folds each finished future into the totals and the state, saving after every one. */
  method RunChunkCopies(done: seq<Finished>, workers: int, state: StateFile?, statePath: bool, untouched: int)
      returns (summary: Outcome<RunSummary>)
    modifies if state == null then {} else {state}
    ensures workers < 1 <==> summary == Raised(ValueError)
    ensures workers >= 1 ==> summary == Returned(Summarise(untouched, done)) && Counts(summary.value, untouched, done)
    ensures state != null && workers >= 1 ==> state.records == FoldAll(old(state.records), done)
    ensures state != null && workers < 1 ==> state.records == old(state.records)
    ensures state != null ==>
      state.saved == old(state.saved) +
        (if statePath && workers >= 1 then Saves(old(state.records), done) else [])
  {
    if workers < 1 {
      return Raised(ValueError);
    }
    hide FoldAll, Summarise, Saves, Counts;
    NothingFolded(old(if state == null then map[] else state.records), untouched);
    assert done[..0] == [];
    var skipped, copied, failed, rowsTotal := 0, 0, 0, 0;
    var k := 0;
    while k < |done|
      invariant 0 <= k <= |done|
      invariant RunSummary(untouched, skipped, copied, failed, rowsTotal) == Summarise(untouched, done[..k])
      invariant state != null ==> state.records == FoldAll(old(state.records), done[..k])
      invariant state != null ==>
        state.saved == old(state.saved) +
          (if statePath then Saves(old(state.records), done[..k]) else [])
    {
      var f := done[k];
      OneMoreFolded(old(if state == null then map[] else state.records), untouched, done, k);
      match f.result {
        case Raised(_) => failed := failed + 1;
        case Returned(r) =>
          if r.outcome.Skipped? {
            skipped := skipped + 1;
          } else {
            copied := copied + 1;
          }
          rowsTotal := rowsTotal + r.rows;
      }
      k := k + 1;
      if state == null {
        continue;
      }
      if f.result.Raised? {
        state.records := state.records - {f.chunk.name};
      } else {
        state.records := state.records[f.chunk.name := StateEntry(f.chunk, f.result.value)];
      }
      if statePath {
        state.saved := state.saved + [state.records];
      }
    }
    assert done[..k] == done;
    EveryChunkIsCounted(untouched, done);
    summary := Returned(RunSummary(untouched, skipped, copied, failed, rowsTotal));
  }

  /**
   One save per completion; what the k-th one puts on disk differs from the initial state on the
   chunks finished by then, and on those it holds exactly the records they earned.
   */
  lemma {:induction false} EverySaveReflectsThePrefix(state: Records, done: seq<Finished>, k: nat)
    requires DistinctChunks(done) && k < |done|
    ensures |Saves(state, done)| == |done| && Reflects(state, done[..k + 1], Saves(state, done)[k])
    decreases |done|
  {
    hide Reflects, FoldAll;
    var front := done[..|done| - 1];
    SavesLength(state, front);
    if k == |done| - 1 {
      assert done[..k + 1] == done;
      FoldReflects(state, done);
    } else {
      EverySaveReflectsThePrefix(state, front, k);
      assert front[..k + 1] == done[..k + 1];
    }
  }

  lemma {:induction false} SavesLength(state: Records, done: seq<Finished>)
    ensures |Saves(state, done)| == |done|
  {
    hide FoldAll;
    if done != [] {
      SavesLength(state, done[..|done| - 1]);
    }
  }

  // ---- choosing what to examine -------------------------------------------

  function Lookup<V>(m: map<string, V>, name: string): Option<V> {
    if name in m then Some(m[name]) else None
  }

  predicate Proven(c: Chunk, state: Records, sigs: map<string, Signature>) {
    ChunkUnchangedSinceState(c, Lookup(state, c.name), Lookup(sigs, c.name))
  }

  /** The chunks on one side of the split, in their order. */
  function Side(chunks: seq<Chunk>, state: Records, sigs: map<string, Signature>, proven: bool): seq<Chunk> {
    if chunks == [] then []
    else
      var front, last := chunks[..|chunks| - 1], chunks[|chunks| - 1];
      Side(front, state, sigs, proven) + (if Proven(last, state, sigs) == proven then [last] else [])
  }

  lemma {:induction false} SideIsChosen(chunks: seq<Chunk>, state: Records, sigs: map<string, Signature>, proven: bool)
    ensures forall c | c in Side(chunks, state, sigs, proven) :: c in chunks && Proven(c, state, sigs) == proven
  {
    if chunks != [] {
      SideIsChosen(chunks[..|chunks| - 1], state, sigs, proven);
    }
  }

  /** One side lists exactly the positions of its chunks, in their order. */
  lemma {:induction false} SideIsInOrder(chunks: seq<Chunk>, state: Records, sigs: map<string, Signature>, proven: bool)
      returns (at: seq<nat>)
    ensures |at| == |Side(chunks, state, sigs, proven)|
    ensures forall k | 0 <= k < |at| :: at[k] < |chunks| && chunks[at[k]] == Side(chunks, state, sigs, proven)[k]
    ensures forall j, k | 0 <= j < k < |at| :: at[j] < at[k]
    ensures forall i: nat | i < |chunks| :: i in at <==> Proven(chunks[i], state, sigs) == proven
  {
    at := [];
    if chunks != [] {
      var n := |chunks| - 1;
      at := SideIsInOrder(chunks[..n], state, sigs, proven);
      if Proven(chunks[n], state, sigs) == proven {
        at := at + [n];
      }
    }
  }

  lemma {:induction false} SidesAddUp(chunks: seq<Chunk>, state: Records, sigs: map<string, Signature>)
    ensures multiset(Side(chunks, state, sigs, false)) + multiset(Side(chunks, state, sigs, true)) == multiset(chunks)
  {
    hide Side, Proven;
    if chunks == [] {
      NoSides(state, sigs);
    } else {
      var front, last := chunks[..|chunks| - 1], chunks[|chunks| - 1];
      SidesAddUp(front, state, sigs);
      assert chunks == front + [last];
      assert multiset(chunks) == multiset(front) + multiset{last};
      LastSide(chunks, state, sigs);
      OneSideGains(Side(front, state, sigs, false), Side(front, state, sigs, true), last);
    }
  }

  lemma NoSides(state: Records, sigs: map<string, Signature>)
    ensures Side([], state, sigs, false) == [] && Side([], state, sigs, true) == []
  {
  }

  lemma LastSide(chunks: seq<Chunk>, state: Records, sigs: map<string, Signature>)
    requires chunks != []
    ensures var front, last := chunks[..|chunks| - 1], chunks[|chunks| - 1];
      forall proven :: Side(chunks, state, sigs, proven) ==
        Side(front, state, sigs, proven) + (if Proven(last, state, sigs) == proven then [last] else [])
  {
  }

  lemma OneSideGains(a: seq<Chunk>, b: seq<Chunk>, c: Chunk)
    ensures multiset(a + [c]) + multiset(b) == multiset(a) + multiset(b) + multiset{c}
    ensures multiset(a) + multiset(b + [c]) == multiset(a) + multiset(b) + multiset{c}
    ensures a + [] == a && b + [] == b
  {
  }

  /**
   Every chunk lands on exactly one side, and on the unexamined one only with a record of the same
   bounds whose signature is the current one.
   */
  lemma SplitIsAPartition(chunks: seq<Chunk>, state: Records, sigs: map<string, Signature>, c: Chunk)
    ensures multiset(Side(chunks, state, sigs, false)) + multiset(Side(chunks, state, sigs, true)) == multiset(chunks)
    ensures c in Side(chunks, state, sigs, true) <==>
      c in chunks && c.name in state && c.name in sigs && state[c.name].sig == sigs[c.name] && state[c.name].rows >= 0
      && state[c.name].rangeStart == c.rangeStart && state[c.name].rangeEnd == c.rangeEnd
  {
    SidesAddUp(chunks, state, sigs);
    SideIsChosen(chunks, state, sigs, false);
    SideIsChosen(chunks, state, sigs, true);
    if c in chunks {
      assert c in multiset(chunks);
      assert c in multiset(Side(chunks, state, sigs, false)) || c in multiset(Side(chunks, state, sigs, true));
    }
  }

  method SplitUnchanged(chunks: seq<Chunk>, state: Records, sigs: map<string, Signature>)
      returns (examine: seq<Chunk>, same: seq<Chunk>)
    ensures examine == Side(chunks, state, sigs, false) && same == Side(chunks, state, sigs, true)
  {
    examine, same := [], [];
    var i := 0;
    while i < |chunks|
      invariant 0 <= i <= |chunks|
      invariant examine == Side(chunks[..i], state, sigs, false) && same == Side(chunks[..i], state, sigs, true)
    {
      assert chunks[..i + 1][..i] == chunks[..i];
      if Proven(chunks[i], state, sigs) {
        same := same + [chunks[i]];
      } else {
        examine := examine + [chunks[i]];
      }
      i := i + 1;
    }
    assert chunks[..i] == chunks;
  }
}
