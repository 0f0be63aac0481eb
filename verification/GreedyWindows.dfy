/** Summing rolling reports without counting an event twice: keep a report only once a full window has passed. */
module GreedyWindows {
  import opened Wrappers
  import opened ConsumeWindow

  datatype Sample = Sample(ts: Option<int>, count: int, bytes: int)

  // ---- the kept samples ---------------------------------------------------

  predicate Timestamped(samples: seq<Sample>) {
    forall i | 0 <= i < |samples| :: samples[i].ts.Some?
  }

  function Times(samples: seq<Sample>): (r: seq<int>)
    ensures |r| == |samples| && forall i | 0 <= i < |r| :: r[i] == samples[i].ts.GetOr(0)
  {
    seq(|samples|, i requires 0 <= i < |samples| => samples[i].ts.GetOr(0))
  }

  predicate InRange(picks: seq<nat>, n: nat) {
    forall i | 0 <= i < |picks| :: picks[i] < n
  }

  /** The instant of the last pick. */
  function LastTime(times: seq<int>, picks: seq<nat>): int {
    if picks != [] && picks[|picks| - 1] < |times| then times[picks[|picks| - 1]] else 0
  }

  /** The picks once sample `n` has been seen too. */
  function Next(times: seq<int>, window: int, before: seq<nat>, n: nat): seq<nat>
    requires n < |times|
  {
    if before == [] || times[n] - LastTime(times, before) >= window then before + [n] else before
  }

  /** Indices kept among the first `n` samples. */
  function Kept(times: seq<int>, window: int, n: nat): (r: seq<nat>)
    requires n <= |times|
    ensures InRange(r, n)
  {
    if n == 0 then [] else Next(times, window, Kept(times, window, n - 1), n - 1)
  }

  function KeptOf(samples: seq<Sample>, window: int): (r: seq<nat>)
    ensures InRange(r, |samples|)
  {
    Kept(Times(samples), window, |samples|)
  }

  function SumCounts(samples: seq<Sample>, picks: seq<nat>): int
    requires InRange(picks, |samples|)
  {
    if picks == [] then 0 else SumCounts(samples, picks[..|picks| - 1]) + samples[picks[|picks| - 1]].count
  }

  function SumBytes(samples: seq<Sample>, picks: seq<nat>): int
    requires InRange(picks, |samples|)
  {
    if picks == [] then 0 else SumBytes(samples, picks[..|picks| - 1]) + samples[picks[|picks| - 1]].bytes
  }

  function AllIndices(n: nat): (r: seq<nat>)
    ensures |r| == n && forall i | 0 <= i < n :: r[i] == i
  {
    seq(n, i => i)
  }

  lemma SumsOfNothing(samples: seq<Sample>)
    ensures SumCounts(samples, []) == 0 && SumBytes(samples, []) == 0 && AllIndices(0) == []
  {
  }

  lemma SumsOfOneMore(samples: seq<Sample>, picks: seq<nat>, k: nat)
    requires k < |samples| && InRange(picks, |samples|)
    ensures SumCounts(samples, picks + [k]) == SumCounts(samples, picks) + samples[k].count
    ensures SumBytes(samples, picks + [k]) == SumBytes(samples, picks) + samples[k].bytes
  {
    assert (picks + [k])[..|picks|] == picks;
  }

  /** Untimestamped samples fall back to the raw sum; otherwise the kept samples are summed. */
  method NonoverlappingListendWindowTotals(samples: seq<Sample>, window: int) returns (count: int, bytes: int)
    ensures (exists i :: 0 <= i < |samples| && samples[i].ts.None?) ==>
      count == SumCounts(samples, AllIndices(|samples|)) && bytes == SumBytes(samples, AllIndices(|samples|))
    ensures (forall i | 0 <= i < |samples| :: samples[i].ts.Some?) ==>
      count == SumCounts(samples, KeptOf(samples, window)) && bytes == SumBytes(samples, KeptOf(samples, window))
  {
    hide SumCounts, SumBytes;
    SumsOfNothing(samples);
    count, bytes := 0, 0;
    if exists i :: 0 <= i < |samples| && samples[i].ts.None? {
      for k := 0 to |samples|
        invariant count == SumCounts(samples, AllIndices(k)) && bytes == SumBytes(samples, AllIndices(k))
      {
        assert AllIndices(k + 1) == AllIndices(k) + [k];
        SumsOfOneMore(samples, AllIndices(k), k);
        count, bytes := count + samples[k].count, bytes + samples[k].bytes;
      }
      return;
    }
    var lastKept: Option<int> := None;
    ghost var times := Times(samples);
    for k := 0 to |samples|
      invariant count == SumCounts(samples, Kept(times, window, k))
      invariant bytes == SumBytes(samples, Kept(times, window, k))
      invariant lastKept == if Kept(times, window, k) == [] then None else Some(LastTime(times, Kept(times, window, k)))
    {
      var ts := samples[k].ts.value;
      SumsOfOneMore(samples, Kept(times, window, k), k);
      if lastKept.None? || ts - lastKept.value >= window {
        count, bytes := count + samples[k].count, bytes + samples[k].bytes;
        lastKept := Some(ts);
      }
    }
  }

  // ---- spacing and maximality ---------------------------------------------

  predicate Ascending(times: seq<int>) {
    forall i, j | 0 <= i < j < |times| :: times[i] <= times[j]
  }

  /** Increasing indices below `n` whose instants are pairwise at least a window apart. */
  predicate Separated(times: seq<int>, window: int, picks: seq<nat>, n: nat)
    requires n <= |times|
  {
    && InRange(picks, n)
    && (forall i, j | 0 <= i < j < |picks| :: picks[i] < picks[j])
    && (forall i, j | 0 <= i < j < |picks| :: times[picks[j]] - times[picks[i]] >= window)
  }

  lemma NextIsSeparated(times: seq<int>, window: int, before: seq<nat>, n: nat)
    requires n < |times| && window >= 0 && Separated(times, window, before, n)
    ensures Separated(times, window, Next(times, window, before, n), n + 1)
  {
    var next := Next(times, window, before, n);
    forall i, j | 0 <= i < j < |next| ensures next[i] < next[j] && times[next[j]] - times[next[i]] >= window {
      if j < |before| {
        assert before[i] < before[j];
      } else if i < |before| - 1 {
        assert times[before[|before| - 1]] - times[before[i]] >= window;
      }
    }
  }

  lemma KeptIsNext(times: seq<int>, window: int, n: nat)
    requires n < |times|
    ensures Kept(times, window, n + 1) == Next(times, window, Kept(times, window, n), n)
    ensures Kept(times, window, 0) == []
  {
  }

  /** The kept samples are pairwise at least a window apart. */
  lemma {:induction false} KeptAreSeparated(times: seq<int>, window: int, n: nat)
    requires n <= |times| && window >= 0
    ensures Separated(times, window, Kept(times, window, n), n)
  {
    if n > 0 {
      hide Separated, Next, Kept;
      KeptAreSeparated(times, window, n - 1);
      KeptIsNext(times, window, n - 1);
      NextIsSeparated(times, window, Kept(times, window, n - 1), n - 1);
    }
  }

  /** Dropping the last pick, or a sample nobody picked, leaves a separated choice. */
  lemma SeparatedBefore(times: seq<int>, window: int, picks: seq<nat>, n: nat)
    requires 0 < n <= |times| && Separated(times, window, picks, n)
    ensures picks != [] && picks[|picks| - 1] == n - 1 ==>
      var front := picks[..|picks| - 1];
      Separated(times, window, front, n - 1) && (front == [] || times[n - 1] - LastTime(times, front) >= window)
    ensures picks == [] || picks[|picks| - 1] != n - 1 ==> Separated(times, window, picks, n - 1)
  {
    if picks != [] {
      assert forall i | 0 <= i < |picks| - 1 :: picks[i] < picks[|picks| - 1];
    }
  }

  /** A choice is no larger than what greedy kept, and if as large ends no earlier. */
  predicate Ahead(times: seq<int>, kept: seq<nat>, picks: seq<nat>) {
    |picks| < |kept| || (|picks| == |kept| && (picks != [] ==> LastTime(times, kept) <= LastTime(times, picks)))
  }

  /** One more sample: greedy stays ahead of a choice that takes it and of one that does not. */
  lemma AheadOneMore(times: seq<int>, window: int, n: nat, before: seq<nat>, front: seq<nat>)
    requires n < |times| && Ahead(times, before, front)
    requires before != [] ==> LastTime(times, before) <= times[n]
    ensures Ahead(times, Next(times, window, before, n), front)
    ensures front == [] || times[n] - LastTime(times, front) >= window ==>
        Ahead(times, Next(times, window, before, n), front + [n])
  {
  }

  lemma NoLaterThanNow(times: seq<int>, picks: seq<nat>, n: nat)
    requires Ascending(times) && n < |times| && InRange(picks, n) && picks != []
    ensures LastTime(times, picks) <= times[n]
  {
  }

  lemma NothingBelowZero(picks: seq<nat>)
    ensures InRange(picks, 0) ==> picks == []
  {
    if picks != [] {
      assert picks[0] >= 0;
    }
  }

  lemma AheadOfNothing(times: seq<int>, window: int, picks: seq<nat>)
    requires Separated(times, window, picks, 0)
    ensures Ahead(times, Kept(times, window, 0), picks)
  {
    NothingBelowZero(picks);
  }

  lemma {:induction false} GreedyStaysAhead(times: seq<int>, window: int, n: nat, picks: seq<nat>)
    requires Ascending(times) && n <= |times| && Separated(times, window, picks, n)
    ensures Ahead(times, Kept(times, window, n), picks)
    decreases n
  {
    hide Ascending, Separated, Next, LastTime, Ahead, Kept, InRange;
    if n == 0 {
      AheadOfNothing(times, window, picks);
    } else {
      KeptIsNext(times, window, n - 1);
      var before := Kept(times, window, n - 1);
      SeparatedBefore(times, window, picks, n);
      if before != [] {
        NoLaterThanNow(times, before, n - 1);
      }
      if picks != [] && picks[|picks| - 1] == n - 1 {
        var front := picks[..|picks| - 1];
        GreedyStaysAhead(times, window, n - 1, front);
        AheadOneMore(times, window, n - 1, before, front);
        assert picks == front + [n - 1];
      } else {
        GreedyStaysAhead(times, window, n - 1, picks);
        AheadOneMore(times, window, n - 1, before, picks);
      }
    }
  }

  /** Picks are made in ascending order, and a later one leaves the earlier ones alone. */
  lemma {:induction false} KeptGrows(times: seq<int>, window: int, m: nat, n: nat)
    requires m <= n <= |times|
    ensures Kept(times, window, m) <= Kept(times, window, n)
    ensures forall i | |Kept(times, window, m)| <= i < |Kept(times, window, n)| :: Kept(times, window, n)[i] >= m
    ensures forall i, j | 0 <= i < j < |Kept(times, window, n)| :: Kept(times, window, n)[i] < Kept(times, window, n)[j]
    decreases n
  {
    hide Kept;
    if n > 0 {
      KeptGrows(times, window, if m < n then m else n - 1, n - 1);
      KeptStep(times, window, n - 1);
      hide Next;
      NextAppends(times, window, Kept(times, window, n - 1), n - 1);
    } else {
      NothingKept(times, window);
    }
  }

  lemma NothingKept(times: seq<int>, window: int)
    ensures Kept(times, window, 0) == []
  {
  }

  lemma NextAppends(times: seq<int>, window: int, before: seq<nat>, n: nat)
    requires n < |times|
    ensures Next(times, window, before, n) == before || Next(times, window, before, n) == before + [n]
  {
  }

  /**
   Which samples are kept: each one for which a full window has passed since the last kept one before it,
   if there is one.
   */
  lemma KeptIff(times: seq<int>, window: int, n: nat, k: nat)
    requires k < n <= |times|
    ensures var kept := Kept(times, window, n);
      k in kept <==> forall j: nat | j < |times| && IsLastBefore(kept, j, k) :: times[k] - times[j] >= window
  {
    hide Kept;
    var before, upTo, kept := Kept(times, window, k), Kept(times, window, k + 1), Kept(times, window, n);
    KeptGrows(times, window, k, k + 1);
    KeptGrows(times, window, k + 1, n);
    KeptStep(times, window, k);
    PicksUpTo(upTo, kept, k);
    if before != [] {
      LastPick(before, kept, k);
    }
  }

  lemma KeptStep(times: seq<int>, window: int, k: nat)
    requires k < |times|
    ensures Kept(times, window, k + 1) == Next(times, window, Kept(times, window, k), k)
    ensures InRange(Kept(times, window, k), k)
  {
  }

  lemma PicksUpTo(upTo: seq<nat>, kept: seq<nat>, k: nat)
    requires upTo <= kept && InRange(upTo, k + 1)
    requires forall i | |upTo| <= i < |kept| :: kept[i] >= k + 1
    ensures forall j | j <= k :: j in kept <==> j in upTo
  {
    assert forall i | 0 <= i < |upTo| :: kept[i] == upTo[i];
  }

  lemma LastPick(before: seq<nat>, kept: seq<nat>, k: nat)
    requires before != [] && before <= kept && InRange(before, k)
    requires forall i | |before| <= i < |kept| :: kept[i] >= k
    requires forall i, j | 0 <= i < j < |kept| :: kept[i] < kept[j]
    ensures forall j :: IsLastBefore(kept, j, k) <==> j == before[|before| - 1]
  {
    var last := before[|before| - 1];
    assert kept[|before| - 1] == last;
    forall i | i in kept && i < k ensures i <= last {
      var x :| 0 <= x < |kept| && kept[x] == i;
      assert x < |before| - 1 ==> kept[x] < kept[|before| - 1];
    }
    assert IsLastBefore(kept, last, k);
  }

  /** `j` is the last pick before `k`. */
  predicate IsLastBefore(picks: seq<nat>, j: nat, k: nat) {
    j in picks && j < k && forall i | i in picks && i < k :: i <= j
  }

  /** No separated choice among time-ordered samples is larger than what is kept. */
  lemma KeptIsLargest(samples: seq<Sample>, window: int, picks: seq<nat>)
    requires Timestamped(samples) && Ascending(Times(samples)) && Separated(Times(samples), window, picks, |samples|)
    ensures |picks| <= |KeptOf(samples, window)|
  {
    hide Separated, Ascending, Kept;
    GreedyStaysAhead(Times(samples), window, |samples|, picks);
  }

  // ---- reports over a history of events -----------------------------------

  function Weight(u: Unlink, inBytes: bool): nat {
    if inBytes then u.bytes else 1
  }

  /** The event lies in the window that ends at `t`; `closed` includes the instant a full window earlier. */
  predicate InWindow(u: Unlink, t: int, window: int, closed: bool) {
    (t - window < u.at || (closed && t - window == u.at)) && u.at <= t
  }

  /** What a report at `t` says of the events. */
  function Report(events: seq<Unlink>, t: int, window: int, closed: bool, inBytes: bool): nat {
    if events == [] then 0
    else
      var u := events[|events| - 1];
      Report(events[..|events| - 1], t, window, closed, inBytes) +
        if InWindow(u, t, window, closed) then Weight(u, inBytes) else 0
  }

  function Reports(events: seq<Unlink>, times: seq<int>, window: int, closed: bool, inBytes: bool): nat {
    if times == [] then 0
    else
      Reports(events, times[..|times| - 1], window, closed, inBytes) +
      Report(events, times[|times| - 1], window, closed, inBytes)
  }

  /** How many of the windows hold the event. */
  function Multiplicity(u: Unlink, times: seq<int>, window: int, closed: bool): nat {
    if times == [] then 0
    else
      Multiplicity(u, times[..|times| - 1], window, closed) +
      if InWindow(u, times[|times| - 1], window, closed) then 1 else 0
  }

  function Weighted(events: seq<Unlink>, times: seq<int>, window: int, closed: bool, inBytes: bool): nat {
    if events == [] then 0
    else
      var u := events[|events| - 1];
      Weighted(events[..|events| - 1], times, window, closed, inBytes) +
        Weight(u, inBytes) * Multiplicity(u, times, window, closed)
  }

  function Total(events: seq<Unlink>, inBytes: bool): nat {
    if events == [] then 0 else Total(events[..|events| - 1], inBytes) + Weight(events[|events| - 1], inBytes)
  }

  lemma OneMoreHolding(w: nat, m: nat)
    ensures w * (m + 1) == w * m + w
  {
  }

  lemma MultiplicityGrows(u: Unlink, times: seq<int>, t: int, window: int, closed: bool)
    ensures Multiplicity(u, times + [t], window, closed) ==
      Multiplicity(u, times, window, closed) + if InWindow(u, t, window, closed) then 1 else 0
  {
    assert (times + [t])[..|times|] == times;
  }

  lemma {:induction false} OneMoreReport(events: seq<Unlink>, times: seq<int>, t: int, window: int, closed: bool,
      inBytes: bool)
    ensures Weighted(events, times + [t], window, closed, inBytes) ==
      Weighted(events, times, window, closed, inBytes) + Report(events, t, window, closed, inBytes)
  {
    if events != [] {
      hide Weighted, Report, Multiplicity, InWindow, Weight;
      var front, u := events[..|events| - 1], events[|events| - 1];
      OneMoreReport(front, times, t, window, closed, inBytes);
      LastEvent(events, times, t, window, closed, inBytes);
      LastEvent(events, times + [t], t, window, closed, inBytes);
      MultiplicityGrows(u, times, t, window, closed);
      OneMoreHolding(Weight(u, inBytes), Multiplicity(u, times, window, closed));
    } else {
      NoEvents(times, t, window, closed, inBytes);
      NoEvents(times + [t], t, window, closed, inBytes);
    }
  }

  lemma LastEvent(events: seq<Unlink>, times: seq<int>, t: int, window: int, closed: bool, inBytes: bool)
    requires events != []
    ensures var front, u := events[..|events| - 1], events[|events| - 1];
      && Weighted(events, times, window, closed, inBytes) ==
           Weighted(front, times, window, closed, inBytes) + Weight(u, inBytes) * Multiplicity(u, times, window, closed)
      && Report(events, t, window, closed, inBytes) ==
           Report(front, t, window, closed, inBytes) + if InWindow(u, t, window, closed) then Weight(u, inBytes) else 0
  {
  }

  lemma NoEvents(times: seq<int>, t: int, window: int, closed: bool, inBytes: bool)
    ensures Weighted([], times, window, closed, inBytes) == 0 && Report([], t, window, closed, inBytes) == 0
  {
  }

  lemma {:induction false} NoReportsNoWeight(events: seq<Unlink>, window: int, closed: bool, inBytes: bool)
    ensures Weighted(events, [], window, closed, inBytes) == 0
  {
    if events != [] {
      NoReportsNoWeight(events[..|events| - 1], window, closed, inBytes);
    }
  }

  /** Summing reports counts every event once for each window that holds it. */
  lemma {:induction false} ReportsCountMultiplicities(events: seq<Unlink>, times: seq<int>, window: int, closed: bool,
      inBytes: bool)
    ensures Reports(events, times, window, closed, inBytes) == Weighted(events, times, window, closed, inBytes)
  {
    if times == [] {
      NoReportsNoWeight(events, window, closed, inBytes);
    } else {
      var front := times[..|times| - 1];
      ReportsCountMultiplicities(events, front, window, closed, inBytes);
      OneMoreReport(events, front, times[|times| - 1], window, closed, inBytes);
      assert front + [times[|times| - 1]] == times;
    }
  }

  predicate Apart(times: seq<int>, window: int) {
    forall i, j | 0 <= i < j < |times| :: times[j] - times[i] >= window
  }

  lemma {:induction false} NoneHolds(u: Unlink, times: seq<int>, window: int, closed: bool)
    requires forall i | 0 <= i < |times| :: !InWindow(u, times[i], window, closed)
    ensures Multiplicity(u, times, window, closed) == 0
  {
    if times != [] {
      NoneHolds(u, times[..|times| - 1], window, closed);
    }
  }

  /** Half-open windows a full window apart hold an event at most once. */
  lemma {:induction false} HalfOpenHoldsOnce(u: Unlink, times: seq<int>, window: int)
    requires window > 0 && Apart(times, window)
    ensures Multiplicity(u, times, window, false) <= 1
  {
    if times != [] {
      var front, t := times[..|times| - 1], times[|times| - 1];
      HalfOpenHoldsOnce(u, front, window);
      if InWindow(u, t, window, false) {
        assert forall i | 0 <= i < |front| :: t - front[i] >= window;
        NoneHolds(u, front, window, false);
      }
    }
  }

  /** The event happened at one kept report, and the next came exactly one window later. */
  ghost predicate OnSeam(u: Unlink, times: seq<int>, window: int) {
    exists i :: 0 <= i < |times| - 1 && u.at == times[i] && times[i + 1] - times[i] == window
  }

  lemma SeamGrows(u: Unlink, times: seq<int>, window: int)
    requires |times| >= 2
    ensures var front, s, t := times[..|times| - 1], times[|times| - 2], times[|times| - 1];
      OnSeam(u, times, window) <==> OnSeam(u, front, window) || (u.at == s && t - s == window)
  {
    var front := times[..|times| - 1];
    if OnSeam(u, times, window) {
      var i :| 0 <= i < |times| - 1 && u.at == times[i] && times[i + 1] - times[i] == window;
      if i < |times| - 2 {
        assert u.at == front[i] && front[i + 1] - front[i] == window;
      }
    }
    if OnSeam(u, front, window) {
      var i :| 0 <= i < |front| - 1 && u.at == front[i] && front[i + 1] - front[i] == window;
      assert u.at == times[i] && times[i + 1] - times[i] == window;
    }
  }

  /** An event no earlier than the last report is in no earlier window, and on no earlier seam. */
  lemma LateEvent(u: Unlink, times: seq<int>, window: int)
    requires window > 0 && Apart(times, window) && times != [] && u.at >= times[|times| - 1]
    ensures Multiplicity(u, times, window, true) == if u.at == times[|times| - 1] then 1 else 0
    ensures !OnSeam(u, times, window)
  {
    var front, s := times[..|times| - 1], times[|times| - 1];
    forall i | 0 <= i < |front| ensures front[i] < u.at {
      assert s - times[i] >= window;
    }
    NoneHolds(u, front, window, true);
  }

  /**
   Closed windows hold an event twice exactly when it happened at one kept report and the next kept
   report came exactly one window later; never three times.
   */
  lemma {:induction false} ClosedHoldsTwiceIff(u: Unlink, times: seq<int>, window: int)
    requires window > 0 && Apart(times, window)
    ensures Multiplicity(u, times, window, true) <= 2
    ensures Multiplicity(u, times, window, true) == 2 <==> OnSeam(u, times, window)
  {
    if |times| >= 2 {
      var front, s, t := times[..|times| - 1], times[|times| - 2], times[|times| - 1];
      ClosedHoldsTwiceIff(u, front, window);
      SeamGrows(u, times, window);
      assert t - s >= window;
      if InWindow(u, t, window, true) {
        LateEvent(u, front, window);
      }
    } else if |times| == 1 {
      assert times[..0] == [];
    }
  }

  lemma {:induction false} WeightedAtMostTotal(events: seq<Unlink>, times: seq<int>, window: int, inBytes: bool)
    requires window > 0 && Apart(times, window)
    ensures Weighted(events, times, window, false, inBytes) <= Total(events, inBytes)
  {
    if events != [] {
      var u := events[|events| - 1];
      WeightedAtMostTotal(events[..|events| - 1], times, window, inBytes);
      HalfOpenHoldsOnce(u, times, window);
      assert Multiplicity(u, times, window, false) == 0 || Multiplicity(u, times, window, false) == 1;
    }
  }

  // ---- the analyzer over listend's reports --------------------------------

  function Picked(times: seq<int>, picks: seq<nat>): (r: seq<int>)
    requires InRange(picks, |times|)
    ensures |r| == |picks| && forall i | 0 <= i < |r| :: r[i] == times[picks[i]]
  {
    seq(|picks|, i requires 0 <= i < |picks| => times[picks[i]])
  }

  /** Every sample reports the events of its window. */
  predicate Truthful(samples: seq<Sample>, events: seq<Unlink>, window: int, closed: bool)
    requires Timestamped(samples)
  {
    forall i | 0 <= i < |samples| ::
      && samples[i].count == Report(events, samples[i].ts.value, window, closed, false)
      && samples[i].bytes == Report(events, samples[i].ts.value, window, closed, true)
  }

  lemma {:induction false} SumsAreReports(samples: seq<Sample>, events: seq<Unlink>, window: int, closed: bool,
      picks: seq<nat>)
    requires Timestamped(samples) && Truthful(samples, events, window, closed)
    requires InRange(picks, |samples|)
    ensures SumCounts(samples, picks) == Reports(events, Picked(Times(samples), picks), window, closed, false)
    ensures SumBytes(samples, picks) == Reports(events, Picked(Times(samples), picks), window, closed, true)
  {
    if picks != [] {
      SumsAreReports(samples, events, window, closed, picks[..|picks| - 1]);
      assert Picked(Times(samples), picks)[..|picks| - 1] == Picked(Times(samples), picks[..|picks| - 1]);
    }
  }

  /** With half-open reports the kept totals never exceed what really happened. */
  lemma KeptTotalsAreBounded(samples: seq<Sample>, events: seq<Unlink>, window: int)
    requires window > 0 && Timestamped(samples) && Truthful(samples, events, window, false)
    ensures var kept := KeptOf(samples, window);
      SumCounts(samples, kept) <= Total(events, false) && SumBytes(samples, kept) <= Total(events, true)
  {
    var kept := KeptOf(samples, window);
    KeptAreSeparated(Times(samples), window, |samples|);
    SumsAreReports(samples, events, window, false, kept);
    var times := Picked(Times(samples), kept);
    ReportsCountMultiplicities(events, times, window, false, false);
    ReportsCountMultiplicities(events, times, window, false, true);
    WeightedAtMostTotal(events, times, window, false);
    WeightedAtMostTotal(events, times, window, true);
  }

  ghost predicate NoEventOnTheSeam(events: seq<Unlink>, times: seq<int>, window: int) {
    forall k | 0 <= k < |events| :: !OnSeam(events[k], times, window)
  }

  lemma {:induction false} ClosedWeighsAtMostTotal(events: seq<Unlink>, times: seq<int>, window: int, inBytes: bool)
    requires window > 0 && Apart(times, window) && NoEventOnTheSeam(events, times, window)
    ensures Weighted(events, times, window, true, inBytes) <= Total(events, inBytes)
  {
    if events != [] {
      var u := events[|events| - 1];
      ClosedWeighsAtMostTotal(events[..|events| - 1], times, window, inBytes);
      ClosedHoldsTwiceIff(u, times, window);
      assert Multiplicity(u, times, window, true) == 0 || Multiplicity(u, times, window, true) == 1;
    }
  }

  /**
   listend's own windows are closed at both ends. The totals are still bounded as long as no event
   fell on the instant of a kept report whose successor came exactly one window later.
   */
  lemma ClosedTotalsAreBounded(samples: seq<Sample>, events: seq<Unlink>, window: int)
    requires window > 0 && Timestamped(samples) && Truthful(samples, events, window, true)
    requires NoEventOnTheSeam(events, Picked(Times(samples), KeptOf(samples, window)), window)
    ensures var kept := KeptOf(samples, window);
      SumCounts(samples, kept) <= Total(events, false) && SumBytes(samples, kept) <= Total(events, true)
  {
    var kept := KeptOf(samples, window);
    KeptAreSeparated(Times(samples), window, |samples|);
    SumsAreReports(samples, events, window, true, kept);
    var times := Picked(Times(samples), kept);
    ReportsCountMultiplicities(events, times, window, true, false);
    ReportsCountMultiplicities(events, times, window, true, true);
    ClosedWeighsAtMostTotal(events, times, window, false);
    ClosedWeighsAtMostTotal(events, times, window, true);
  }

  /** The weight of the events that no window holds. */
  function MissedWeight(events: seq<Unlink>, times: seq<int>, window: int, inBytes: bool): nat {
    if events == [] then 0
    else
      var u := events[|events| - 1];
      MissedWeight(events[..|events| - 1], times, window, inBytes)
      + if Multiplicity(u, times, window, true) == 0 then Weight(u, inBytes) else 0
  }

  /** The weight of the events on a seam of two windows. */
  ghost function SeamWeight(events: seq<Unlink>, times: seq<int>, window: int, inBytes: bool): nat {
    if events == [] then 0
    else
      var u := events[|events| - 1];
      SeamWeight(events[..|events| - 1], times, window, inBytes) +
        if OnSeam(u, times, window) then Weight(u, inBytes) else 0
  }

  lemma {:induction false} ClosedBalance(events: seq<Unlink>, times: seq<int>, window: int, inBytes: bool)
    requires window > 0 && Apart(times, window)
    ensures Weighted(events, times, window, true, inBytes) + MissedWeight(events, times, window, inBytes) ==
      Total(events, inBytes) + SeamWeight(events, times, window, inBytes)
  {
    if events != [] {
      hide Multiplicity, OnSeam;
      var u := events[|events| - 1];
      ClosedBalance(events[..|events| - 1], times, window, inBytes);
      ClosedHoldsTwiceIff(u, times, window);
      var m := Multiplicity(u, times, window, true);
      assert m == 0 || m == 1 || m == 2;
    }
  }

  /**
   The exact balance for listend's closed windows: what the kept reports add up to, and what they
   miss, is what happened and what fell on a seam. So the kept total exceeds the true one exactly when
   more weight is on seams than is missed.
   */
  lemma ClosedTotalsBalance(samples: seq<Sample>, events: seq<Unlink>, window: int)
    requires window > 0 && Timestamped(samples) && Truthful(samples, events, window, true)
    ensures var kept := KeptOf(samples, window);
      var times := Picked(Times(samples), kept);
      && SumCounts(samples, kept) + MissedWeight(events, times, window, false) ==
           Total(events, false) + SeamWeight(events, times, window, false)
      && SumBytes(samples, kept) + MissedWeight(events, times, window, true) ==
           Total(events, true) + SeamWeight(events, times, window, true)
  {
    var kept := KeptOf(samples, window);
    KeptAreSeparated(Times(samples), window, |samples|);
    SumsAreReports(samples, events, window, true, kept);
    var times := Picked(Times(samples), kept);
    ReportsCountMultiplicities(events, times, window, true, false);
    ReportsCountMultiplicities(events, times, window, true, true);
    ClosedBalance(events, times, window, false);
    ClosedBalance(events, times, window, true);
  }

  /** The monitor's totals are reports over closed windows, as long as no event is later than the report. */
  lemma {:induction false} ListendReportsClosedWindows(unlinks: seq<Unlink>, now: int)
    requires forall i | 0 <= i < |unlinks| :: unlinks[i].at <= now
    ensures UnlinksSince(unlinks, now - MESSAGE_WINDOW_SECONDS) ==
        Report(unlinks, now, MESSAGE_WINDOW_SECONDS, true, false)
    ensures BytesSince(unlinks, now - MESSAGE_WINDOW_SECONDS) ==
        Report(unlinks, now, MESSAGE_WINDOW_SECONDS, true, true)
  {
    if unlinks != [] {
      ListendReportsClosedWindows(unlinks[..|unlinks| - 1], now);
    }
  }

  lemma OneEvent(u: Unlink, t: int, window: int, closed: bool)
    ensures Report([u], t, window, closed, false) == if InWindow(u, t, window, closed) then 1 else 0
    ensures Report([u], t, window, closed, true) == if InWindow(u, t, window, closed) then u.bytes else 0
    ensures Total([u], false) == 1 && Total([u], true) == u.bytes
  {
    assert [u][..0] == [];
  }

  lemma TwoKept(times: seq<int>, window: int)
    requires |times| == 2 && times[1] - times[0] >= window
    ensures Kept(times, window, 2) == [0, 1]
  {
    assert Kept(times, window, 0) == [];
    assert Kept(times, window, 1) == Next(times, window, [], 0) == [0];
    assert Kept(times, window, 2) == Next(times, window, [0], 1) == [0] + [1];
  }

  /** One unlink on the seam of two kept reports is counted twice, whenever and however large it was. */
  lemma SeamCountsTwice(at: int, bytes: nat)
    ensures var events := [Unlink(at, bytes)];
      var samples := [Sample(Some(at), 1, bytes), Sample(Some(at + MESSAGE_WINDOW_SECONDS), 1, bytes)];
      && Truthful(samples, events, MESSAGE_WINDOW_SECONDS, true)
      && var kept := KeptOf(samples, MESSAGE_WINDOW_SECONDS);
      SumCounts(samples, kept) == 2 && Total(events, false) == 1 && SumBytes(samples, kept) == 2 * bytes
        && Total(events, true) == bytes
  {
    hide Report, Kept, SumCounts, SumBytes, Total;
    var events := [Unlink(at, bytes)];
    var samples := [Sample(Some(at), 1, bytes), Sample(Some(at + 600), 1, bytes)];
    OneEvent(events[0], at, 600, true);
    OneEvent(events[0], at + 600, 600, true);
    TwoKept(Times(samples), 600);
    SumsOfNothing(samples);
    SumsOfOneMore(samples, [], 0);
    SumsOfOneMore(samples, [0], 1);
    assert [] + [0] == [0] && [0] + [1] == [0, 1];
  }
}
