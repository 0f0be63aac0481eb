/** What reordering does to one host's stream: disjoint adjacent inverted pairs are swapped. */
module ReorderOrder {
  import opened Wrappers

  /** An archive queue item, for the part the reorder worker looks at. */
  datatype Work = Work(id: nat, host: string, unixSecond: Option<int>, isDollar: bool, recvMonotonic: real)

  /** The heap key: unix second, `$` before digit, then receive sequence. */
  datatype SortKey = SortKey(second: int, dollarLast: int, recvSeq: nat)

  function KeyOf(w: Work, recvSeq: nat): SortKey {
    SortKey(w.unixSecond.GetOr(0), if w.isDollar then 0 else 1, recvSeq)
  }

  predicate KeyLess(a: SortKey, b: SortKey) {
    || a.second < b.second
    || (a.second == b.second && a.dollarLast < b.dollarLast)
    || (a.second == b.second && a.dollarLast == b.dollarLast && a.recvSeq < b.recvSeq)
  }

  /** `x` chronologically precedes `y`: an earlier second, or the same second and only `x` a `$`. */
  predicate Before(x: Work, y: Work) {
    var (s, t) := (x.unixSecond.GetOr(0), y.unixSecond.GetOr(0));
    s < t || (s == t && x.isDollar && !y.isDollar)
  }

  /** The timestamped items of one host, in order. */
  function OfHost(s: seq<Work>, host: string): seq<Work> {
    if s == [] then []
    else
      var last := s[|s| - 1];
      OfHost(s[..|s| - 1], host) + if last.host == host && last.unixSecond.Some? then [last] else []
  }

  lemma {:induction false} OfHostConcat(s: seq<Work>, t: seq<Work>, host: string)
    ensures OfHost(s + t, host) == OfHost(s, host) + OfHost(t, host)
  {
    if t == [] {
      assert s + t == s;
    } else {
      OfHostConcat(s, t[..|t| - 1], host);
      assert (s + t)[..|s + t| - 1] == s + t[..|t| - 1];
    }
  }

  lemma OfHostOne(w: Work, host: string)
    ensures OfHost([w], host) == if w.host == host && w.unixSecond.Some? then [w] else []
  {
    assert [w][..0] == [];
  }

  /** The items without a timestamp, in order. */
  function Untimed(s: seq<Work>): seq<Work> {
    if s == [] then []
    else Untimed(s[..|s| - 1]) + if s[|s| - 1].unixSecond.None? then [s[|s| - 1]] else []
  }

  lemma {:induction false} UntimedConcat(s: seq<Work>, t: seq<Work>)
    ensures Untimed(s + t) == Untimed(s) + Untimed(t)
  {
    if t == [] {
      assert s + t == s;
    } else {
      UntimedConcat(s, t[..|t| - 1]);
      assert (s + t)[..|s + t| - 1] == s + t[..|t| - 1];
    }
  }

  lemma {:induction false} CountIn(s: seq<Work>, w: Work)
    ensures multiset(s)[w] == multiset(if w.unixSecond.Some? then OfHost(s, w.host) else Untimed(s))[w]
  {
    if s != [] {
      hide OfHost, Untimed;
      var front, last := s[..|s| - 1], s[|s| - 1];
      CountIn(front, w);
      SplitLast(front, last, w.host);
      assert s == front + [last];
      assert multiset(s) == multiset(front) + multiset{last} by {
        assert s == front + [last];
      }
      LastCounts(OfHost(front, w.host), last, w);
      LastCounts(Untimed(front), last, w);
    }
  }

  lemma SplitLast(front: seq<Work>, last: Work, host: string)
    ensures OfHost(front + [last], host) ==
        OfHost(front, host) + if last.host == host && last.unixSecond.Some? then [last] else []
    ensures Untimed(front + [last]) == Untimed(front) + if last.unixSecond.None? then [last] else []
  {
    assert (front + [last])[..|front|] == front;
  }

  lemma LastCounts(front: seq<Work>, last: Work, w: Work)
    ensures multiset(front + [last])[w] == multiset(front)[w] + if last == w then 1 else 0
    ensures front + [] == front
  {
  }

  /** `output` is `arrival` with disjoint adjacent pairs swapped, each of which had arrived inverted. */
  predicate SwapsPairs(arrival: seq<Work>, output: seq<Work>) {
    var n := |arrival|;
    && n == |output|
    && (n > 0 ==>
          || (arrival[n - 1] == output[n - 1] && SwapsPairs(arrival[..n - 1], output[..n - 1]))
          || (n > 1
              && arrival[n - 2] == output[n - 1] && arrival[n - 1] == output[n - 2]
              && Before(arrival[n - 1], arrival[n - 2])
              && SwapsPairs(arrival[..n - 2], output[..n - 2])))
  }

  lemma SwapsPairsAppendOne(a: seq<Work>, o: seq<Work>, x: Work)
    requires SwapsPairs(a, o)
    ensures SwapsPairs(a + [x], o + [x])
  {
    assert (a + [x])[..|a|] == a && (o + [x])[..|o|] == o;
  }

  lemma SwapsPairsAppendSwapped(a: seq<Work>, o: seq<Work>, x: Work, y: Work)
    requires SwapsPairs(a, o) && Before(y, x)
    ensures SwapsPairs(a + [x, y], o + [y, x])
  {
    assert (a + [x, y])[..|a|] == a && (o + [y, x])[..|o|] == o;
  }

  lemma LastOne(s: seq<Work>)
    requires |s| > 0
    ensures multiset(s) == multiset(s[..|s| - 1]) + multiset{s[|s| - 1]}
  {
    assert s == s[..|s| - 1] + [s[|s| - 1]];
  }

  lemma LastTwo(s: seq<Work>)
    requires |s| > 1
    ensures multiset(s) == multiset(s[..|s| - 2]) + multiset{s[|s| - 2], s[|s| - 1]}
  {
    assert s == s[..|s| - 2] + [s[|s| - 2], s[|s| - 1]];
  }

  lemma {:induction false} SwapsPairsSameItems(a: seq<Work>, o: seq<Work>)
    requires SwapsPairs(a, o)
    ensures multiset(a) == multiset(o)
    decreases |a|
  {
    var n := |a|;
    if n > 0 {
      if a[n - 1] == o[n - 1] && SwapsPairs(a[..n - 1], o[..n - 1]) {
        SwapsPairsSameItems(a[..n - 1], o[..n - 1]);
        LastOne(a);
        LastOne(o);
      } else {
        SwapsPairsSameItems(a[..n - 2], o[..n - 2]);
        LastTwo(a);
        LastTwo(o);
      }
    }
  }

  /** Streams that agree host by host, and on the items without a timestamp, hold the same items equally often. */
  lemma SameItems(arrived: seq<Work>, flushed: seq<Work>)
    requires Untimed(arrived) == Untimed(flushed)
    requires forall host :: SwapsPairs(OfHost(arrived, host), OfHost(flushed, host))
    ensures multiset(arrived) == multiset(flushed)
  {
    forall w: Work ensures multiset(arrived)[w] == multiset(flushed)[w] {
      CountIn(arrived, w);
      CountIn(flushed, w);
      assert SwapsPairs(OfHost(arrived, w.host), OfHost(flushed, w.host));
      SwapsPairsSameItems(OfHost(arrived, w.host), OfHost(flushed, w.host));
    }
  }

  // ---- inversions ---------------------------------------------------------

  /** How many items of `s` the item `x` chronologically precedes. */
  function Overtaken(s: seq<Work>, x: Work): nat {
    if s == [] then 0 else Overtaken(s[..|s| - 1], x) + if Before(x, s[|s| - 1]) then 1 else 0
  }

  /** The number of pairs of `s` in the wrong chronological order. */
  function Inversions(s: seq<Work>): nat {
    if s == [] then 0 else Inversions(s[..|s| - 1]) + Overtaken(s[..|s| - 1], s[|s| - 1])
  }

  lemma {:induction false} SwapsPairsOvertaken(a: seq<Work>, o: seq<Work>, x: Work)
    requires SwapsPairs(a, o)
    ensures Overtaken(a, x) == Overtaken(o, x)
    decreases |a|
  {
    var n := |a|;
    if n > 0 {
      if a[n - 1] == o[n - 1] && SwapsPairs(a[..n - 1], o[..n - 1]) {
        SwapsPairsOvertaken(a[..n - 1], o[..n - 1], x);
      } else {
        SwapsPairsOvertaken(a[..n - 2], o[..n - 2], x);
        assert a[..n - 1][..n - 2] == a[..n - 2] && o[..n - 1][..n - 2] == o[..n - 2];
      }
    }
  }

  /** Reordering never adds an inversion, and removes at least one whenever it changes the stream. */
  lemma {:induction false} ReorderingRemovesInversions(a: seq<Work>, o: seq<Work>)
    requires SwapsPairs(a, o)
    ensures Inversions(o) <= Inversions(a)
    ensures a != o ==> Inversions(o) < Inversions(a)
    decreases |a|
  {
    var n := |a|;
    if n > 0 {
      hide Inversions, Before, Overtaken;
      if a[n - 1] == o[n - 1] && SwapsPairs(a[..n - 1], o[..n - 1]) {
        ReorderingRemovesInversions(a[..n - 1], o[..n - 1]);
        SameLast(a, o);
      } else {
        ReorderingRemovesInversions(a[..n - 2], o[..n - 2]);
        SwappedLast(a, o);
      }
    }
  }

  lemma SameLast(a: seq<Work>, o: seq<Work>)
    requires |a| == |o| > 0 && a[|a| - 1] == o[|o| - 1] && SwapsPairs(a[..|a| - 1], o[..|o| - 1])
    ensures Inversions(a) - Inversions(o) == Inversions(a[..|a| - 1]) - Inversions(o[..|o| - 1])
    ensures a != o ==> a[..|a| - 1] != o[..|o| - 1]
  {
    hide Inversions, Before, Overtaken, SwapsPairs;
    var n := |a|;
    SwapsPairsOvertaken(a[..n - 1], o[..n - 1], a[n - 1]);
    InversionsOfLast(a);
    InversionsOfLast(o);
    assert a == a[..n - 1] + [a[n - 1]] && o == o[..n - 1] + [o[n - 1]];
  }

  lemma SwappedLast(a: seq<Work>, o: seq<Work>)
    requires |a| == |o| > 1 && SwapsPairs(a[..|a| - 2], o[..|o| - 2])
    requires var n := |a|; a[n - 2] == o[n - 1] && a[n - 1] == o[n - 2] && Before(a[n - 1], a[n - 2])
    ensures Inversions(a) - Inversions(o) == Inversions(a[..|a| - 2]) - Inversions(o[..|o| - 2]) + 1
  {
    hide Inversions, Overtaken, SwapsPairs;
    var n := |a|;
    var (x, y) := (a[n - 2], a[n - 1]);
    EarlierFirst(y, x);
    hide Before;
    SwapsPairsOvertaken(a[..n - 2], o[..n - 2], x);
    SwapsPairsOvertaken(a[..n - 2], o[..n - 2], y);
    InversionsOfLastTwo(a);
    InversionsOfLastTwo(o);
  }

  lemma InversionsOfLast(s: seq<Work>)
    requires s != []
    ensures Inversions(s) == Inversions(s[..|s| - 1]) + Overtaken(s[..|s| - 1], s[|s| - 1])
  {
  }

  lemma InversionsOfLastTwo(s: seq<Work>)
    requires |s| > 1
    ensures var n := |s|;
      Inversions(s) == Inversions(s[..n - 2]) + Overtaken(s[..n - 2], s[n - 2]) + Overtaken(s[..n - 2], s[n - 1])
        + if Before(s[n - 1], s[n - 2]) then 1 else 0
  {
    assert s[..|s| - 1][..|s| - 2] == s[..|s| - 2];
  }

  lemma EarlierFirst(x: Work, y: Work)
    ensures Before(x, y) ==> !Before(y, x)
  {
  }

  lemma {:induction false} SortedHasNoInversions(s: seq<Work>)
    requires forall i, j | 0 <= i < j < |s| :: !Before(s[j], s[i])
    ensures Inversions(s) == 0
  {
    if s != [] {
      SortedHasNoInversions(s[..|s| - 1]);
      NothingOvertaken(s[..|s| - 1], s[|s| - 1]);
    }
  }

  lemma {:induction false} NothingOvertaken(s: seq<Work>, x: Work)
    requires forall i | 0 <= i < |s| :: !Before(x, s[i])
    ensures Overtaken(s, x) == 0
  {
    if s != [] {
      NothingOvertaken(s[..|s| - 1], x);
    }
  }

  /** A stream that arrives in chronological order leaves unchanged. */
  lemma SortedStreamUnchanged(a: seq<Work>, o: seq<Work>)
    requires SwapsPairs(a, o)
    requires forall i, j | 0 <= i < j < |a| :: !Before(a[j], a[i])
    ensures o == a
  {
    SortedHasNoInversions(a);
    ReorderingRemovesInversions(a, o);
  }
}
