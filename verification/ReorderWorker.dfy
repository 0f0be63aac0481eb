/** The host-affine archive worker: per-host reorder heaps, the hold time, the final drain and the in-flight counter. */
module ReorderWorker {
  import opened Wrappers
  import opened ReorderOrder

  const ARCHIVE_REORDER_HOLD_SECONDS := 1.0

  datatype Held = Held(key: SortKey, recvMonotonic: real, work: Work)

  /**
   What one `work_queue.get` gave: an item, nothing within the timeout, or the stop sentinel. Each drain
   reads the clock anew: after an item for its host only, after a timeout for every host that holds one.
   */
  datatype Got = Item(work: Work, now: real) | Timeout(clock: string -> real) | Sentinel

  /** The item has been held for long enough at clock reading `now`. */
  predicate Due(received: real, now: real) {
    now - received >= ARCHIVE_REORDER_HOLD_SECONDS
  }

  predicate Sorted(heap: seq<Held>) {
    forall i, j | 0 <= i < j < |heap| :: KeyLess(heap[i].key, heap[j].key)
  }

  /** `heapq.heappush`, on a heap kept in key order; only its first element is ever looked at. */
  function HeapPush(heap: seq<Held>, x: Held): (r: seq<Held>)
    ensures |r| == |heap| + 1 && multiset(r) == multiset(heap) + multiset{x}
  {
    if heap == [] || KeyLess(x.key, heap[0].key) then [x] + heap
    else
      assert heap == [heap[0]] + heap[1..];
      [heap[0]] + HeapPush(heap[1..], x)
  }

  lemma {:induction false} HeapPushSorted(heap: seq<Held>, x: Held)
    requires Sorted(heap) && forall h | h in heap :: h.key != x.key
    ensures Sorted(HeapPush(heap, x))
  {
    if heap != [] && !KeyLess(x.key, heap[0].key) {
      HeapPushSorted(heap[1..], x);
      var rest := HeapPush(heap[1..], x);
      forall i | 0 <= i < |rest| ensures KeyLess(heap[0].key, rest[i].key) {
        assert rest[i] in multiset(rest);
        assert rest[i] in multiset(heap[1..]) + multiset{x};
      }
    }
  }

  function Works(heap: seq<Held>): seq<Work> {
    if heap == [] then [] else [heap[0].work] + Works(heap[1..])
  }

  lemma {:induction false} WorksSnoc(heap: seq<Held>, k: nat)
    requires k < |heap|
    ensures Works(heap[..k + 1]) == Works(heap[..k]) + [heap[k].work]
  {
    if k > 0 {
      WorksSnoc(heap[1..], k - 1);
      assert heap[..k + 1][1..] == heap[1..][..k] && heap[..k][1..] == heap[1..][..k - 1];
    } else {
      assert heap[..1][1..] == [] && heap[..0] == [];
    }
  }

  /** Holding at most one item, the worker's flushed stream of `host` is its arrivals with swapped pairs. */
  ghost predicate HostStream(arrived: seq<Work>, flushed: seq<Work>, heaps: map<string, seq<Held>>, host: string) {
    var (a, o) := (OfHost(arrived, host), OfHost(flushed, host));
    if host in heaps then
      && |heaps[host]| == 1
      && var w := heaps[host][0].work;
      && w.host == host && w.unixSecond.Some?
      && a != [] && a[|a| - 1] == w && SwapsPairs(a[..|a| - 1], o)
    else SwapsPairs(a, o)
  }

  /** In key order: as they arrived, or swapped if inverted. */
  function InOrder(p: Work, w: Work): seq<Work> {
    if Before(w, p) then [w, p] else [p, w]
  }

  /** A held item is joined by a newer one: in key order the two come out as they arrived, or swapped if inverted. */
  lemma {:induction false} PairInKeyOrder(p: Held, x: Held)
    requires p.key == KeyOf(p.work, p.key.recvSeq)
    requires x.key == KeyOf(x.work, x.key.recvSeq) && p.key.recvSeq < x.key.recvSeq
    ensures Works(HeapPush([p], x)) == InOrder(p.work, x.work)
  {
    assert HeapPush([p], x) == if KeyLess(x.key, p.key) then [x, p] else [p, x];
    WorksOfTwo(p, x);
    WorksOfTwo(x, p);
  }

  lemma WorksOfTwo(p: Held, x: Held)
    ensures Works([p, x]) == [p.work, x.work] && Works([p]) == [p.work]
  {
    assert [p, x][1..] == [x] && [x][1..] == [] && [p][1..] == [];
    assert Works([x]) == [x.work] + Works([]);
  }

  lemma OfHostTwo(x: Work, y: Work, host: string)
    requires x.host == y.host == host && x.unixSecond.Some? && y.unixSecond.Some?
    ensures OfHost([x, y], host) == [x, y]
  {
    OfHostConcat([x], [y], host);
    OfHostOne(x, host);
    OfHostOne(y, host);
    assert [x, y] == [x] + [y];
  }

  /** A first arrival `w` of its host that is pushed on an empty heap and then flushed, or held. */
  lemma {:induction false} StreamAfterFirst(arrived: seq<Work>, flushed: seq<Work>, heaps: map<string, seq<Held>>,
                                            w: Work, x: Held, flushed': seq<Work>, heaps': map<string, seq<Held>>)
    requires HostStream(arrived, flushed, heaps, w.host) && w.host !in heaps && w.unixSecond.Some? && x.work == w
    requires (w.host !in heaps' && flushed' == flushed + [w])
        || (w.host in heaps' && heaps'[w.host] == [x] && flushed' == flushed)
    ensures HostStream(arrived + [w], flushed', heaps', w.host)
  {
    hide OfHost, SwapsPairs;
    var a, o := OfHost(arrived, w.host), OfHost(flushed, w.host);
    OfHostConcat(arrived, [w], w.host);
    OfHostConcat(flushed, [w], w.host);
    OfHostOne(w, w.host);
    SwapsPairsAppendOne(a, o, w);
    assert (a + [w])[..|a|] == a;
  }

  lemma {:induction false} SwapsPairsInOrder(a: seq<Work>, o: seq<Work>, p: Work, w: Work)
    requires SwapsPairs(a, o)
    ensures SwapsPairs(a + [p] + [w], o + InOrder(p, w))
  {
    if Before(w, p) {
      SwapsPairsAppendSwapped(a, o, p, w);
      assert a + [p] + [w] == a + [p, w];
    } else {
      SwapsPairsAppendOne(a, o, p);
      SwapsPairsAppendOne(a + [p], o + [p], w);
      assert o + [p] + [w] == o + [p, w];
    }
  }

  /** An arrival `w` that joins a held item `p` of its host: both are flushed in key order. */
  lemma {:induction false} StreamAfterPair(arrived: seq<Work>, flushed: seq<Work>, before: seq<Work>, p: Work, w: Work)
    requires p.host == w.host && p.unixSecond.Some? && w.unixSecond.Some?
    requires OfHost(arrived, w.host) == before + [p] && SwapsPairs(before, OfHost(flushed, w.host))
    ensures SwapsPairs(OfHost(arrived + [w], w.host), OfHost(flushed + InOrder(p, w), w.host))
  {
    OfHostConcat(arrived, [w], w.host);
    OfHostOne(w, w.host);
    OfHostTwo(p, w, w.host);
    OfHostTwo(w, p, w.host);
    OfHostConcat(flushed, InOrder(p, w), w.host);
    SwapsPairsInOrder(before, OfHost(flushed, w.host), p, w);
  }

  /** Items of another host, or without a timestamp, do not touch a host's streams. */
  lemma StreamOfOtherHost(arrived: seq<Work>, flushed: seq<Work>, heaps: map<string, seq<Held>>, host: string,
                          more: seq<Work>, moreFlushed: seq<Work>, heaps': map<string, seq<Held>>)
    requires HostStream(arrived, flushed, heaps, host)
    requires host in heaps <==> host in heaps'
    requires host in heaps ==> heaps[host] == heaps'[host]
    requires OfHost(more, host) == [] && OfHost(moreFlushed, host) == []
    ensures HostStream(arrived + more, flushed + moreFlushed, heaps', host)
  {
    OfHostConcat(arrived, more, host);
    OfHostConcat(flushed, moreFlushed, host);
    assert OfHost(arrived, host) + [] == OfHost(arrived, host) && OfHost(flushed, host) + [] == OfHost(flushed, host);
  }

  lemma {:induction false} WorksOfOtherHost(heap: seq<Held>, host: string)
    requires forall i | 0 <= i < |heap| :: heap[i].work.host != host
    ensures OfHost(Works(heap), host) == []
  {
    if heap != [] {
      WorksOfOtherHost(heap[1..], host);
      OfHostConcat([heap[0].work], Works(heap[1..]), host);
      OfHostOne(heap[0].work, host);
    }
  }

  /**
   The arrival is pushed on its host's heap. The heap is then drained, unless the arrival is alone in it
   and not due at `now`; then it stays.
   */
  ghost predicate PushedAndDrained(flushed: seq<Work>, heaps: map<string, seq<Held>>, x: Held, now: real,
                                   flushed': seq<Work>, heaps': map<string, seq<Held>>) {
    var host := x.work.host;
    var heap := HeapPush(if host in heaps then heaps[host] else [], x);
    && heaps' - {host} == heaps - {host}
    && (host in heaps' <==> |heap| == 1 && !Due(heap[0].recvMonotonic, now))
    && (host in heaps' ==> heaps'[host] == heap && flushed' == flushed)
    && (host !in heaps' ==> flushed' == flushed + Works(heap))
  }

  predicate KeysFit(heap: seq<Held>, recvSeq: nat) {
    forall i | 0 <= i < |heap| ::
      && heap[i].key.recvSeq < recvSeq && heap[i].key == KeyOf(heap[i].work, heap[i].key.recvSeq)
      && heap[i].recvMonotonic == heap[i].work.recvMonotonic
  }

  lemma {:induction false} OwnStreamAfterOrdered(arrived: seq<Work>, flushed: seq<Work>,
                                                 heaps: map<string, seq<Held>>, x: Held, now: real,
                                                 flushed': seq<Work>, heaps': map<string, seq<Held>>)
    requires HostStream(arrived, flushed, heaps, x.work.host)
    requires x.work.unixSecond.Some? && x.key == KeyOf(x.work, x.key.recvSeq)
    requires x.work.host in heaps ==> KeysFit(heaps[x.work.host], x.key.recvSeq)
    requires PushedAndDrained(flushed, heaps, x, now, flushed', heaps')
    ensures HostStream(arrived + [x.work], flushed', heaps', x.work.host)
  {
    var w := x.work;
    if w.host in heaps {
      var p := heaps[w.host][0];
      var a := OfHost(arrived, w.host);
      assert heaps[w.host] == [p] && a == a[..|a| - 1] + [p.work];
      PairInKeyOrder(p, x);
      StreamAfterPair(arrived, flushed, a[..|a| - 1], p.work, w);
    } else {
      assert HeapPush([], x) == [x];
      WorksOfTwo(x, x);
      StreamAfterFirst(arrived, flushed, heaps, w, x, flushed', heaps');
    }
  }

  /** A heap between iterations: one timestamped item of the host. */
  lemma HeldOne(arrived: seq<Work>, flushed: seq<Work>, heaps: map<string, seq<Held>>, host: string)
    requires HostStream(arrived, flushed, heaps, host) && host in heaps
    ensures |heaps[host]| == 1 && heaps[host][0].work.host == host && heaps[host][0].work.unixSecond.Some?
  {
  }

  lemma PushedAreOfHost(heap: seq<Held>, x: Held)
    requires forall i | 0 <= i < |heap| :: heap[i].work.host == x.work.host && heap[i].work.unixSecond.Some?
    requires x.work.unixSecond.Some?
    ensures forall i | 0 <= i < |HeapPush(heap, x)| ::
      HeapPush(heap, x)[i].work.host == x.work.host && HeapPush(heap, x)[i].work.unixSecond.Some?
  {
    hide HeapPush;
    var pushed := HeapPush(heap, x);
    forall i | 0 <= i < |pushed| ensures pushed[i].work.host == x.work.host && pushed[i].work.unixSecond.Some? {
      assert pushed[i] in multiset(pushed) && pushed[i] in multiset(heap) + multiset{x};
      assert pushed[i] in heap || pushed[i] == x;
    }
  }

  lemma {:induction false} OtherStreamAfterOrdered(arrived: seq<Work>, flushed: seq<Work>,
                                                   heaps: map<string, seq<Held>>, x: Held, now: real,
                                                   flushed': seq<Work>, heaps': map<string, seq<Held>>, other: string)
    requires HostStream(arrived, flushed, heaps, other)
    requires HostStream(arrived, flushed, heaps, x.work.host) && other != x.work.host
    requires x.work.unixSecond.Some?
    requires PushedAndDrained(flushed, heaps, x, now, flushed', heaps')
    ensures HostStream(arrived + [x.work], flushed', heaps', other)
  {
    assert OfHost([], other) == [];
    hide HostStream, OfHost, Works, HeapPush;
    var host := x.work.host;
    OfHostOne(x.work, other);
    OtherHeapKept(heaps, heaps', host, other);
    if host in heaps' {
      assert flushed' == flushed + [];
      StreamOfOtherHost(arrived, flushed, heaps, other, [x.work], [], heaps');
    } else {
      var heap0 := if host in heaps then heaps[host] else [];
      if host in heaps {
        HeldOne(arrived, flushed, heaps, host);
      }
      PushedAreOfHost(heap0, x);
      var heap := HeapPush(heap0, x);
      WorksOfOtherHost(heap, other);
      StreamOfOtherHost(arrived, flushed, heaps, other, [x.work], Works(heap), heaps');
    }
  }

  lemma {:induction false} WorksTimed(heap: seq<Held>)
    requires forall i | 0 <= i < |heap| :: heap[i].work.unixSecond.Some?
    ensures Untimed(Works(heap)) == []
  {
    if heap != [] {
      WorksTimed(heap[1..]);
      UntimedConcat([heap[0].work], Works(heap[1..]));
      assert [heap[0].work][..0] == [];
    }
  }

  lemma {:induction false} UntimedAfterOrdered(arrived: seq<Work>, flushed: seq<Work>,
                                               heaps: map<string, seq<Held>>, x: Held, now: real,
                                               flushed': seq<Work>, heaps': map<string, seq<Held>>)
    requires HostStream(arrived, flushed, heaps, x.work.host) && x.work.unixSecond.Some?
    requires PushedAndDrained(flushed, heaps, x, now, flushed', heaps')
    ensures Untimed(arrived + [x.work]) == Untimed(arrived) && Untimed(flushed') == Untimed(flushed)
  {
    hide HostStream, Works, HeapPush;
    UntimedConcat(arrived, [x.work]);
    assert [x.work][..0] == [];
    if x.work.host !in heaps' {
      var heap0 := if x.work.host in heaps then heaps[x.work.host] else [];
      if x.work.host in heaps {
        HeldOne(arrived, flushed, heaps, x.work.host);
      }
      PushedAreOfHost(heap0, x);
      var heap := HeapPush(heap0, x);
      WorksTimed(heap);
      UntimedConcat(flushed, Works(heap));
    }
  }

  lemma {:induction false} StreamsAfterOrdered(arrived: seq<Work>, flushed: seq<Work>,
                                               heaps: map<string, seq<Held>>, x: Held, now: real,
                                               flushed': seq<Work>, heaps': map<string, seq<Held>>)
    requires forall host :: HostStream(arrived, flushed, heaps, host)
    requires x.work.unixSecond.Some? && x.key == KeyOf(x.work, x.key.recvSeq)
    requires x.work.host in heaps ==> KeysFit(heaps[x.work.host], x.key.recvSeq)
    requires PushedAndDrained(flushed, heaps, x, now, flushed', heaps')
    ensures forall host :: HostStream(arrived + [x.work], flushed', heaps', host)
    ensures Untimed(arrived + [x.work]) == Untimed(arrived) && Untimed(flushed') == Untimed(flushed)
  {
    hide HostStream, Untimed, PushedAndDrained, KeysFit;
    assert HostStream(arrived, flushed, heaps, x.work.host);
    UntimedAfterOrdered(arrived, flushed, heaps, x, now, flushed', heaps');
    forall host ensures HostStream(arrived + [x.work], flushed', heaps', host) {
      assert HostStream(arrived, flushed, heaps, x.work.host);
      if host == x.work.host {
        OwnStreamAfterOrdered(arrived, flushed, heaps, x, now, flushed', heaps');
      } else {
        OtherStreamAfterOrdered(arrived, flushed, heaps, x, now, flushed', heaps', host);
      }
    }
  }

  lemma {:induction false} StreamAfterRelease(arrived: seq<Work>, flushed: seq<Work>, heaps: map<string, seq<Held>>,
      p: Held, h: string)
    requires HostStream(arrived, flushed, heaps, h)
    requires p.work.host in heaps && heaps[p.work.host] == [p] && p.work.unixSecond.Some?
    ensures HostStream(arrived, flushed + [p.work], heaps - {p.work.host}, h)
  {
    hide OfHost, SwapsPairs;
    OfHostConcat(flushed, [p.work], h);
    OfHostOne(p.work, h);
    if h == p.work.host {
      var a := OfHost(arrived, h);
      SwapsPairsAppendOne(a[..|a| - 1], OfHost(flushed, h), p.work);
      assert a == a[..|a| - 1] + [p.work];
    } else {
      assert OfHost(flushed, h) + [] == OfHost(flushed, h);
    }
  }

  /** An item flushed as it arrives: without a timestamp, or with nothing held for its host. */
  lemma StreamAfterUnordered(arrived: seq<Work>, flushed: seq<Work>, heaps: map<string, seq<Held>>,
      host: string, work: Work)
    requires HostStream(arrived, flushed, heaps, host) && (work.unixSecond.None? || host !in heaps)
    ensures HostStream(arrived + [work], flushed + [work], heaps, host)
  {
    OfHostOne(work, host);
    if work.host == host && work.unixSecond.Some? {
      OfHostConcat(arrived, [work], host);
      OfHostConcat(flushed, [work], host);
      SwapsPairsAppendOne(OfHost(arrived, host), OfHost(flushed, host), work);
    } else {
      hide HostStream;
      StreamOfOtherHost(arrived, flushed, heaps, host, [work], [work], heaps);
    }
  }

  /** Flushing a held item keeps every stream in order. */
  lemma {:induction false} StreamsAfterRelease(arrived: seq<Work>, flushed: seq<Work>, heaps: map<string, seq<Held>>,
      host: string)
    requires host in heaps && forall h :: HostStream(arrived, flushed, heaps, h)
    ensures var flushed' := flushed + Works(heaps[host]);
      (forall h :: HostStream(arrived, flushed', heaps - {host}, h)) && Untimed(flushed') == Untimed(flushed)
  {
    assert HostStream(arrived, flushed, heaps, host);
    var p := heaps[host][0];
    assert heaps[host] == [p];
    WorksOfTwo(p, p);
    WorksTimed([p]);
    UntimedConcat(flushed, [p.work]);
    forall h ensures HostStream(arrived, flushed + [p.work], heaps - {host}, h) {
      StreamAfterRelease(arrived, flushed, heaps, p, h);
    }
  }

  function WorksOfGot(items: seq<Got>): seq<Work> {
    if items == [] then []
    else WorksOfGot(items[..|items| - 1]) + if items[|items| - 1].Item? then [items[|items| - 1].work] else []
  }

  // ---- one host by itself -------------------------------------------------

  /** What has been flushed for a host, in order, and the item that waits for it. */
  datatype Slot = Slot(out: seq<Work>, held: Option<Work>)

  /**
   What one get means to a host. A timestamped item waits until the next one of its host comes, or until
   a drain finds it due; two that meet leave in chronological order.
   */
  function SlotStep(consumers: int, slot: Slot, got: Got, host: string): Slot {
    match got
    case Sentinel => slot
    case Timeout(clock) =>
      if slot.held.Some? && Due(slot.held.value.recvMonotonic, clock(host))
      then Slot(slot.out + [slot.held.value], None) else slot
    case Item(w, now) =>
      if w.host != host || w.unixSecond.None? then slot
      else if consumers <= 1 then slot.(out := slot.out + [w])
      else if slot.held.Some? then Slot(slot.out + InOrder(slot.held.value, w), None)
      else if Due(w.recvMonotonic, now) then slot.(out := slot.out + [w])
      else slot.(held := Some(w))
  }

  function Slots(consumers: int, slot: Slot, gets: seq<Got>, host: string): Slot {
    if gets == [] then slot
    else SlotStep(consumers, Slots(consumers, slot, gets[..|gets| - 1], host), gets[|gets| - 1], host)
  }

  /** What the host has flushed once its waiting item is forced out. */
  function Released(slot: Slot): seq<Work> {
    slot.out + if slot.held.Some? then [slot.held.value] else []
  }

  /** No timestamped item of the host. */
  predicate Without(gets: seq<Got>, host: string) {
    forall i | 0 <= i < |gets| && gets[i].Item? :: gets[i].work.host != host || gets[i].work.unixSecond.None?
  }

  /** Some timeout finds an item due that was received at `received`. */
  predicate AgedBy(gets: seq<Got>, host: string, received: real) {
    exists i :: 0 <= i < |gets| && gets[i].Timeout? && Due(received, gets[i].clock(host))
  }

  lemma {:induction false} SlotsConcat(consumers: int, slot: Slot, a: seq<Got>, b: seq<Got>, host: string)
    ensures Slots(consumers, slot, a + b, host) == Slots(consumers, Slots(consumers, slot, a, host), b, host)
  {
    if b == [] {
      assert a + b == a;
    } else {
      SlotsConcat(consumers, slot, a, b[..|b| - 1], host);
      assert (a + b)[..|a + b| - 1] == a + b[..|b| - 1];
    }
  }

  lemma SlotsOne(consumers: int, slot: Slot, got: Got, host: string)
    ensures Slots(consumers, slot, [got], host) == SlotStep(consumers, slot, got, host)
  {
    assert [got][..0] == [];
  }

  /** Until the next timestamped item of its host comes, an item waits exactly until a timeout finds it due. */
  lemma {:induction false} WaitsUntilDue(consumers: int, slot: Slot, gets: seq<Got>, host: string)
    requires Without(gets, host)
    ensures Slots(consumers, slot, gets, host) ==
      if slot.held.Some? && AgedBy(gets, host, slot.held.value.recvMonotonic)
      then Slot(slot.out + [slot.held.value], None) else slot
  {
    if gets != [] {
      var front, last := gets[..|gets| - 1], gets[|gets| - 1];
      WaitsUntilDue(consumers, slot, front, host);
      if slot.held.Some? {
        var received := slot.held.value.recvMonotonic;
        assert AgedBy(gets, host, received) <==>
          AgedBy(front, host, received) || (last.Timeout? && Due(received, last.clock(host))) by {
          if AgedBy(front, host, received) {
            var i :| 0 <= i < |front| && front[i].Timeout? && Due(received, front[i].clock(host));
            assert gets[i] == front[i];
          }
          if AgedBy(gets, host, received) {
            var i :| 0 <= i < |gets| && gets[i].Timeout? && Due(received, gets[i].clock(host));
            assert i < |front| ==> gets[i] == front[i];
          }
        }
      }
    }
  }

  /** The first of two items is still waiting when the second comes: not due at once, nor at a timeout. */
  predicate WithinTheHold(p: Work, now: real, between: seq<Got>) {
    && now - p.recvMonotonic < 1.0
    && forall i | 0 <= i < |between| && between[i].Timeout? :: between[i].clock(p.host) - p.recvMonotonic < 1.0
  }

  /** The later arrival has the earlier second, or the same one and is the only `$` of the two. */
  predicate Inverted(p: Work, w: Work)
    requires p.unixSecond.Some? && w.unixSecond.Some?
  {
    || w.unixSecond.value < p.unixSecond.value
    || (w.unixSecond.value == p.unixSecond.value && w.isDollar && !p.isDollar)
  }

  /**
   Two timestamped items of a host, one after the other, the first of which finds nothing waiting. They
   leave together and in order exactly when the first is not yet a second old, neither at once nor at a
   timeout in between; otherwise the first leaves first. So an inverted pair is swapped exactly when it
   meets within the hold.
   */
  lemma PairMeetsWithinTheHold(consumers: int, slot: Slot, p: Work, now: real, between: seq<Got>, w: Work, later: real)
    requires consumers > 1 && slot.held.None? && Without(between, p.host) && p.host == w.host
    requires p.unixSecond.Some? && w.unixSecond.Some?
    ensures var after := Slots(consumers, slot, [Item(p, now)] + between + [Item(w, later)], p.host);
      if WithinTheHold(p, now, between) then
        after == Slot(slot.out + if Inverted(p, w) then [w, p] else [p, w], None)
      else Released(after) == slot.out + [p, w]
    ensures Inverted(p, w) ==>
      (Released(Slots(consumers, slot, [Item(p, now)] + between + [Item(w, later)], p.host)) == slot.out + [w, p] <==>
       WithinTheHold(p, now, between))
  {
    hide AgedBy, Slots;
    var host := p.host;
    HeldMeans(p, now, between);
    hide WithinTheHold;
    SlotsConcat(consumers, slot, [Item(p, now)] + between, [Item(w, later)], host);
    SlotsConcat(consumers, slot, [Item(p, now)], between, host);
    SlotsOne(consumers, slot, Item(p, now), host);
    var first := SlotStep(consumers, slot, Item(p, now), host);
    WaitsUntilDue(consumers, first, between, host);
    SlotsOne(consumers, Slots(consumers, first, between, host), Item(w, later), host);
    assert slot.out + [p] + [w] == slot.out + [p, w];
    if Before(w, p) {
      assert (slot.out + [w, p])[|slot.out|] == w && (slot.out + [p, w])[|slot.out|] == p;
    }
  }

  lemma HeldMeans(p: Work, now: real, between: seq<Got>)
    ensures WithinTheHold(p, now, between) <==>
      !Due(p.recvMonotonic, now) && !AgedBy(between, p.host, p.recvMonotonic)
  {
  }

  /** The slot of a host in the state of the worker. */
  function SlotIn(flushed: seq<Work>, heaps: map<string, seq<Held>>, host: string): Slot {
    Slot(OfHost(flushed, host), if host in heaps && heaps[host] != [] then Some(heaps[host][0].work) else None)
  }

  lemma SlotAfterFlush(consumers: int, flushed: seq<Work>, heaps: map<string, seq<Held>>, work: Work, now: real,
                       host: string)
    requires consumers <= 1 || work.unixSecond.None?
    ensures SlotIn(flushed + [work], heaps, host) ==
      SlotStep(consumers, SlotIn(flushed, heaps, host), Item(work, now), host)
  {
    hide OfHost;
    OfHostConcat(flushed, [work], host);
    OfHostOne(work, host);
    assert OfHost(flushed, host) + [] == OfHost(flushed, host);
  }

  /** What pushing and draining means, spelled out for at most one held item per host. */
  ghost predicate Met(flushed: seq<Work>, heaps: map<string, seq<Held>>, w: Work, now: real,
                      flushed': seq<Work>, heaps': map<string, seq<Held>>) {
    && heaps' - {w.host} == heaps - {w.host}
    && if w.host in heaps then
         && heaps[w.host] != [] && flushed' == flushed + InOrder(heaps[w.host][0].work, w) && w.host !in heaps'
       else if Due(w.recvMonotonic, now) then flushed' == flushed + [w] && w.host !in heaps'
       else
         && flushed' == flushed && w.host in heaps' && |heaps'[w.host]| == 1
         && heaps'[w.host][0].work == w && heaps'[w.host][0].recvMonotonic == w.recvMonotonic
  }

  lemma {:induction false} MetWhenDrained(flushed: seq<Work>, heaps: map<string, seq<Held>>, x: Held, now: real,
                                          flushed': seq<Work>, heaps': map<string, seq<Held>>)
    requires PushedAndDrained(flushed, heaps, x, now, flushed', heaps')
    requires x.recvMonotonic == x.work.recvMonotonic && x.key == KeyOf(x.work, x.key.recvSeq)
    requires x.work.host in heaps ==> |heaps[x.work.host]| == 1 && KeysFit(heaps[x.work.host], x.key.recvSeq)
    ensures Met(flushed, heaps, x.work, now, flushed', heaps')
  {
    if x.work.host in heaps {
      var p := heaps[x.work.host][0];
      assert heaps[x.work.host] == [p];
      PairInKeyOrder(p, x);
    } else {
      assert HeapPush([], x) == [x];
      WorksOfTwo(x, x);
    }
  }

  lemma SlotAfterMeeting(consumers: int, flushed: seq<Work>, heaps: map<string, seq<Held>>, w: Work, now: real,
                         flushed': seq<Work>, heaps': map<string, seq<Held>>, host: string)
    requires consumers > 1 && w.unixSecond.Some? && Met(flushed, heaps, w, now, flushed', heaps')
    requires w.host in heaps ==> heaps[w.host][0].work.host == w.host && heaps[w.host][0].work.unixSecond.Some?
    ensures SlotIn(flushed', heaps', host) == SlotStep(consumers, SlotIn(flushed, heaps, host), Item(w, now), host)
  {
    hide OfHost, Due;
    var more := if w.host in heaps then InOrder(heaps[w.host][0].work, w)
                else if Due(w.recvMonotonic, now) then [w] else [];
    assert flushed' == flushed + more;
    OfHostConcat(flushed, more, host);
    NothingOfHost(host);
    OfHostOne(w, host);
    if w.host in heaps {
      OfHostPair(heaps[w.host][0].work, w, host);
    }
    if host != w.host {
      OtherHeapKept(heaps, heaps', w.host, host);
      assert OfHost(flushed, host) + [] == OfHost(flushed, host);
    }
  }

  lemma NothingOfHost(host: string)
    ensures OfHost([], host) == []
  {
  }

  lemma OfHostPair(p: Work, w: Work, host: string)
    requires p.host == w.host && p.unixSecond.Some? && w.unixSecond.Some?
    ensures OfHost(InOrder(p, w), host) == if host == w.host then InOrder(p, w) else []
  {
    hide OfHost, Before;
    OfHostConcat([p], [w], host);
    OfHostConcat([w], [p], host);
    OfHostOne(p, host);
    OfHostOne(w, host);
    assert [p] + [w] == [p, w] && [w] + [p] == [w, p];
  }

  lemma OtherHeapKept(heaps: map<string, seq<Held>>, heaps': map<string, seq<Held>>, host: string, other: string)
    requires heaps' - {host} == heaps - {host} && other != host
    ensures other in heaps' <==> other in heaps
    ensures other in heaps ==> heaps'[other] == heaps[other]
  {
    assert other in heaps <==> other in heaps - {host};
    assert other in heaps' <==> other in heaps' - {host};
    assert other in heaps ==> (heaps - {host})[other] == (heaps' - {host})[other];
  }

  lemma EmptySlotStays(slot: Slot, force: bool, now: real)
    requires slot.held.None?
    ensures DrainedSlot(slot, force, now) == slot
  {
  }

  /** A slot after a drain of its host, by force or at clock reading `now`. */
  function DrainedSlot(slot: Slot, force: bool, now: real): Slot {
    if slot.held.Some? && (force || Due(slot.held.value.recvMonotonic, now))
    then Slot(Released(slot), None) else slot
  }

  lemma DrainedAtTimeout(consumers: int, slot: Slot, clock: string -> real, host: string)
    ensures DrainedSlot(slot, false, clock(host)) == SlotStep(consumers, slot, Timeout(clock), host)
    ensures DrainedSlot(slot, true, clock(host)) == Slot(Released(slot), None)
  {
    assert slot.out + [] == slot.out;
  }

  class Worker {
    const consumerCount: int
    var heaps: map<string, seq<Held>>
    var recvSeq: nat
    /** The counter shared by all archive workers, and what the other workers contribute to it. */
    var inflight: int
    var others: nat

    /** How many items this worker holds or is flushing. */
    ghost var held: nat
    ghost var floorUsed: bool
    ghost var arrived: seq<Work>
    ghost var flushed: seq<Work>

    constructor (consumerCount: int, inflight: nat)
      ensures Idle() && arrived == flushed == [] && this.consumerCount == consumerCount && !floorUsed
    {
      this.consumerCount := consumerCount;
      heaps, recvSeq, this.inflight := map[], 0, inflight;
      others, held, floorUsed := inflight, 0, false;
      arrived, flushed := [], [];
    }

    /** The counter is what all workers hold, and no held item is newer than the receive sequence. */
    ghost predicate Counted()
      reads this
    {
      && inflight == others + held && !floorUsed
      && (forall h | h in heaps :: KeysFit(heaps[h], recvSeq) && Sorted(heaps[h]))
    }

    /** Between iterations: one item per heap, every arrival flushed or held, streams in order. */
    ghost predicate Idle()
      reads this
    {
      && Counted() && held == |heaps|
      && (forall host :: HostStream(arrived, flushed, heaps, host))
      && Untimed(flushed) == Untimed(arrived)
      && (consumerCount <= 1 ==> heaps == map[] && flushed == arrived)
    }

    ghost function SlotOf(host: string): Slot
      reads this
    {
      SlotIn(flushed, heaps, host)
    }

    // ---- in-flight counter ------------------------------------------------

    method ArchiveInflightAdd(delta: int)
      modifies `inflight, `floorUsed
      ensures inflight == if old(inflight) + delta < 0 then 0 else old(inflight) + delta
      ensures floorUsed <==> old(floorUsed) || old(inflight) + delta < 0
    {
      floorUsed := floorUsed || inflight + delta < 0;
      inflight := if inflight + delta < 0 then 0 else inflight + delta;
    }

    /** The other workers run for a while; each adds and removes only its own items. */
    method OtherWorkersRun()
      requires inflight == others + held
      modifies `inflight, `others
      ensures inflight == others + held
    {
      var now: nat := *;
      inflight := inflight - others + now;
      others := now;
    }

    // ---- flushing ---------------------------------------------------------

    /** Archive one item, then take it off the counter. */
    method FlushWork(work: Work)
      requires inflight == others + held && held > 0 && !floorUsed
      modifies `inflight, `floorUsed, `held, `flushed, `others
      ensures inflight == others + held && held == old(held) - 1 && !floorUsed
      ensures flushed == old(flushed) + [work]
    {
      OtherWorkersRun();
      flushed := flushed + [work];
      ArchiveInflightAdd(-1);
      held := held - 1;
    }

    /** `heapq.heappop`: take the item with the least key. */
    method PopLeast(host: string) returns (top: Held)
      requires Counted() && host in heaps && heaps[host] != []
      modifies `heaps
      ensures Counted()
      ensures host in heaps && old(heaps)[host] == [top] + heaps[host] && heaps == old(heaps)[host := heaps[host]]
      ensures forall h | h in heaps[host] :: KeyLess(top.key, h.key)
    {
      hide KeysFit;
      top := heaps[host][0];
      RestFits(heaps[host], recvSeq);
      heaps := heaps[host := heaps[host][1..]];
    }

    /**
     Flush the host's heap from the front. A lone item that is neither forced out nor due at `now` stays;
     otherwise the whole heap leaves.
     */
    method DrainHost(host: string, force: bool, now: real)
      requires Counted() && (host in heaps ==> 0 < |heaps[host]| <= held)
      modifies `inflight, `floorUsed, `held, `flushed, `others, `heaps
      ensures Counted()
      ensures host in heaps <==>
        host in old(heaps) && !force && |old(heaps)[host]| == 1 && !Due(old(heaps)[host][0].recvMonotonic, now)
      ensures host in heaps ==> heaps == old(heaps) && flushed == old(flushed) && held == old(held)
      ensures host in old(heaps) && host !in heaps ==>
        && heaps == old(heaps) - {host}
        && flushed == old(flushed) + Works(old(heaps)[host]) && held == old(held) - |old(heaps)[host]|
      ensures host !in old(heaps) ==> heaps == old(heaps) && flushed == old(flushed) && held == old(held)
    {
      if host !in heaps {
        return;
      }
      var flushedAny := false;
      ghost var heap0, flushed0, k := heaps[host], flushed, 0;
      while heaps[host] != []
        invariant Counted() && host in heaps && heaps - {host} == old(heaps) - {host}
        invariant 0 <= k <= |heap0| && heaps[host] == heap0[k..] && held == old(held) - k
        invariant flushed == flushed0 + Works(heap0[..k])
        invariant k == 0 ==> heaps == old(heaps) && flushed == flushed0
        invariant k > 0 ==> force || |heap0| >= 2 || Due(heap0[0].recvMonotonic, now)
        invariant flushedAny <==> k > 0
        decreases |heaps[host]|
      {
        var top := heaps[host][0];
        var ready := force || flushedAny || now - top.recvMonotonic >= ARCHIVE_REORDER_HOLD_SECONDS
          || |heaps[host]| >= 2;
        if !ready {
          return;
        }
        var popped := PopLeast(host);
        assert heap0[k..][1..] == heap0[k + 1..];
        FlushWork(popped.work);
        flushedAny := true;
        WorksSnoc(heap0, k);
        k := k + 1;
      }
      assert heap0[..k] == heap0;
      heaps := heaps - {host};
    }

    // ---- one iteration ----------------------------------------------------

    /** Flush at once: a single consumer, or an item without a timestamp. */
    method HandleUnordered(work: Work, now: real)
      requires Idle() && (consumerCount <= 1 || work.unixSecond.None?)
      modifies this
      ensures Idle() && arrived == old(arrived) + [work] && flushed == old(flushed) + [work] && heaps == old(heaps)
      ensures forall host :: SlotOf(host) == SlotStep(consumerCount, old(SlotOf(host)), Item(work, now), host)
    {
      hide HostStream, KeysFit, Untimed, SlotIn, SlotStep;
      ArchiveInflightAdd(1);
      held := held + 1;
      arrived := arrived + [work];
      FlushWork(work);
      UntimedConcat(old(arrived), [work]);
      UntimedConcat(old(flushed), [work]);
      forall host ensures HostStream(arrived, flushed, heaps, host) {
        assert HostStream(old(arrived), old(flushed), heaps, host);
        StreamAfterUnordered(old(arrived), old(flushed), heaps, host, work);
      }
      forall host ensures SlotOf(host) == SlotStep(consumerCount, old(SlotOf(host)), Item(work, now), host) {
        SlotAfterFlush(consumerCount, old(flushed), heaps, work, now, host);
      }
    }

    method PushHeld(host: string, x: Held)
      requires Counted() && x.key.recvSeq < recvSeq && x.key == KeyOf(x.work, x.key.recvSeq)
      requires x.recvMonotonic == x.work.recvMonotonic
      requires host in heaps ==> KeysFit(heaps[host], x.key.recvSeq)
      modifies `heaps
      ensures Counted()
      ensures heaps == old(heaps)[host := HeapPush(if host in old(heaps) then old(heaps)[host] else [], x)]
    {
      var heap := if host in heaps then heaps[host] else [];
      forall h | h in HeapPush(heap, x) ensures h in heap || h == x {
        assert h in multiset(HeapPush(heap, x)) && h in multiset(heap) + multiset{x};
      }
      assert KeysFit(HeapPush(heap, x), recvSeq) by {
        forall i | 0 <= i < |HeapPush(heap, x)|
          ensures HeapPush(heap, x)[i].key.recvSeq < recvSeq
          ensures HeapPush(heap, x)[i].key == KeyOf(HeapPush(heap, x)[i].work, HeapPush(heap, x)[i].key.recvSeq)
          ensures HeapPush(heap, x)[i].recvMonotonic == HeapPush(heap, x)[i].work.recvMonotonic
        {
          assert HeapPush(heap, x)[i] in HeapPush(heap, x);
        }
      }
      HeapPushSorted(heap, x);
      heaps := heaps[host := HeapPush(heap, x)];
    }

    method PushAndDrain(host: string, x: Held, now: real)
      requires Counted() && x.key.recvSeq < recvSeq && x.key == KeyOf(x.work, x.key.recvSeq) && x.work.host == host
      requires x.recvMonotonic == x.work.recvMonotonic
      requires host in heaps ==> |heaps[host]| == 1 && KeysFit(heaps[host], x.key.recvSeq)
      requires held == |heaps| + 1
      modifies `inflight, `floorUsed, `held, `flushed, `others, `heaps
      ensures Counted() && held == |heaps|
      ensures PushedAndDrained(old(flushed), old(heaps), x, now, flushed, heaps)
    {
      hide KeysFit, HeapPush;
      ghost var pushed := HeapPush(if host in heaps then heaps[host] else [], x);
      HeldCount(heaps, heaps[host := pushed], host);
      HeapsWithout(heaps[host := pushed], host);
      PushHeld(host, x);
      DrainHost(host, false, now);
    }

    /**
     Push onto the host's heap and drain what is ready. The first timestamped item of its host stays while
     it is not due; a second one makes both leave in chronological order.
     */
    method HandleOrdered(work: Work, now: real)
      requires Idle() && consumerCount > 1 && work.unixSecond.Some?
      modifies this
      ensures Idle() && arrived == old(arrived) + [work]
      ensures Met(old(flushed), old(heaps), work, now, flushed, heaps)
      ensures forall host :: SlotOf(host) == SlotStep(consumerCount, old(SlotOf(host)), Item(work, now), host)
    {
      hide HostStream, KeysFit, Untimed, PushedAndDrained, Met, SlotIn, SlotStep;
      var host := work.host;
      ghost var heaps0, flushed0 := heaps, flushed;
      assert HostStream(arrived, flushed, heaps, host);
      if host in heaps {
        HeldOne(arrived, flushed, heaps, host);
      }
      forall h | h in heaps ensures KeysFit(heaps[h], recvSeq + 1) {
        KeysFitLater(heaps[h], recvSeq);
      }
      ArchiveInflightAdd(1);
      held := held + 1;
      arrived := arrived + [work];
      var x := Held(KeyOf(work, recvSeq), work.recvMonotonic, work);
      recvSeq := recvSeq + 1;
      PushAndDrain(host, x, now);
      StreamsAfterOrdered(old(arrived), flushed0, heaps0, x, now, flushed, heaps);
      MetWhenDrained(flushed0, heaps0, x, now, flushed, heaps);
      forall h ensures SlotOf(h) == SlotStep(consumerCount, SlotIn(flushed0, heaps0, h), Item(work, now), h) {
        SlotAfterMeeting(consumerCount, flushed0, heaps0, work, now, flushed, heaps, h);
      }
    }

    // ---- the worker loop --------------------------------------------------

    /** One host of `DrainAll`: its waiting item leaves exactly when forced or due. */
    method DrainHeld(host: string, force: bool, now: real)
      requires Idle()
      modifies `inflight, `floorUsed, `held, `flushed, `others, `heaps
      ensures Idle()
      ensures forall h | h != host :: SlotOf(h) == old(SlotOf(h))
      ensures SlotOf(host) == DrainedSlot(old(SlotOf(host)), force, now)
      ensures heaps == old(heaps) || heaps == old(heaps) - {host}
      ensures force ==> host !in heaps
    {
      assert HostStream(arrived, flushed, heaps, host);
      HeapsWithout(heaps, host);
      if host in heaps {
        HeldOne(arrived, flushed, heaps, host);
        StreamsAfterRelease(arrived, flushed, heaps, host);
        SlotsAfterRelease(flushed, heaps, host);
      }
      DrainHost(host, force, now);
    }

    method DrainAll(force: bool, clock: string -> real)
      requires Idle()
      modifies `inflight, `floorUsed, `held, `flushed, `others, `heaps
      ensures Idle()
      ensures !force ==> forall host :: SlotOf(host) == SlotStep(consumerCount, old(SlotOf(host)), Timeout(clock), host)
      ensures force ==> forall host :: SlotOf(host) == Slot(Released(old(SlotOf(host))), None)
      ensures force ==> heaps == map[]
    {
      hide HostStream, KeysFit, Untimed, Sorted, OfHost, SlotStep, DrainedSlot, Released;
      var todo := heaps.Keys;
      ghost var heaps0 := heaps;
      while todo != {}
        invariant Idle() && heaps.Keys <= heaps0.Keys && todo <= heaps0.Keys
        invariant force ==> heaps.Keys <= todo
        invariant forall host ::
          SlotOf(host) == if host in heaps0 && host !in todo then DrainedSlot(old(SlotOf(host)), force, clock(host))
                          else old(SlotOf(host))
      {
        var host :| host in todo;
        todo := todo - {host};
        DrainHeld(host, force, clock(host));
      }
      forall host ensures SlotOf(host) == DrainedSlot(old(SlotOf(host)), force, clock(host)) {
        if host !in heaps0 {
          EmptySlotStays(old(SlotOf(host)), force, clock(host));
        }
      }
      forall host
        ensures DrainedSlot(old(SlotOf(host)), false, clock(host)) ==
          SlotStep(consumerCount, old(SlotOf(host)), Timeout(clock), host)
        ensures DrainedSlot(old(SlotOf(host)), true, clock(host)) == Slot(Released(old(SlotOf(host))), None)
      {
        DrainedAtTimeout(consumerCount, old(SlotOf(host)), clock, host);
      }
    }

    /**
     Take items off the queue until the stop event is seen, the sentinel comes or the gets are over, then
     drain by force. Every popped item is flushed exactly once. What each host flushes is what its slot
     says, which is its arrivals with swapped pairs only; the worker's share of the counter is back to
     nothing and never underran.
     */
    method Run(gets: seq<Got>, stopSeen: nat) returns (taken: nat)
      requires Idle()
      modifies this
      ensures taken <= |gets| && taken <= stopSeen
      ensures forall i | 0 <= i < taken - 1 :: !gets[i].Sentinel?
      ensures taken == |gets| || taken == stopSeen || (taken > 0 && gets[taken - 1].Sentinel?)
      ensures arrived == old(arrived) + WorksOfGot(gets[..taken])
      ensures forall host ::
        OfHost(flushed, host) == Released(Slots(consumerCount, old(SlotOf(host)), gets[..taken], host))
      ensures multiset(flushed) == multiset(arrived)
      ensures forall host :: SwapsPairs(OfHost(arrived, host), OfHost(flushed, host))
      ensures Untimed(flushed) == Untimed(arrived)
      ensures consumerCount <= 1 ==> flushed == arrived
      ensures heaps == map[] && inflight == others && !floorUsed
    {
      hide HostStream, SwapsPairs, KeysFit, OfHost, Untimed, Slots, Counted, WorksOfGot, SlotIn;
      taken := 0;
      NothingTaken(gets);
      NoGetsNoChange(consumerCount);
      while taken < |gets| && taken < stopSeen
        invariant taken <= |gets| && taken <= stopSeen && Idle()
        invariant forall i | 0 <= i < taken :: !gets[i].Sentinel?
        invariant arrived == old(arrived) + WorksOfGot(gets[..taken])
        invariant forall host :: SlotOf(host) == Slots(consumerCount, old(SlotOf(host)), gets[..taken], host)
      {
        var got := gets[taken];
        OneMoreGet(consumerCount, gets, taken);
        TakeOne(got);
        taken := taken + 1;
        if got.Sentinel? {
          break;
        }
      }
      DrainAll(true, _ => 0.0);
      forall host
        ensures SwapsPairs(OfHost(arrived, host), OfHost(flushed, host))
        ensures OfHost(flushed, host) == SlotOf(host).out
      {
        NothingHeld(arrived, flushed, heaps, host);
        SlotsOut(flushed, heaps, host);
      }
      InflightIsBack();
      SameItems(arrived, flushed);
    }

    lemma InflightIsBack()
      requires Idle() && heaps == map[]
      ensures inflight == others && !floorUsed
    {
    }

    method TakeOne(got: Got)
      requires Idle()
      modifies this
      ensures Idle() && arrived == old(arrived) + if got.Item? then [got.work] else []
      ensures forall host :: SlotOf(host) == SlotStep(consumerCount, old(SlotOf(host)), got, host)
    {
      hide HostStream, KeysFit, OfHost, Untimed, SlotStep, Met, Sorted, Counted, SlotIn;
      match got
      case Timeout(clock) =>
        DrainAll(false, clock);
      case Sentinel =>
        SentinelIsNothing(consumerCount);
      case Item(work, now) =>
        if consumerCount <= 1 || work.unixSecond.None? {
          HandleUnordered(work, now);
        } else {
          HandleOrdered(work, now);
        }
    }
  }

  lemma NothingTaken(gets: seq<Got>)
    ensures gets[..0] == [] && WorksOfGot([]) == []
  {
  }

  lemma NoGetsNoChange(consumers: int)
    ensures forall slot, host :: Slots(consumers, slot, [], host) == slot
  {
  }

  lemma OneMoreGet(consumers: int, gets: seq<Got>, n: nat)
    requires n < |gets|
    ensures WorksOfGot(gets[..n + 1]) == WorksOfGot(gets[..n]) + if gets[n].Item? then [gets[n].work] else []
    ensures forall slot, host ::
      Slots(consumers, slot, gets[..n + 1], host) ==
      SlotStep(consumers, Slots(consumers, slot, gets[..n], host), gets[n], host)
  {
    assert gets[..n + 1][..n] == gets[..n];
  }

  lemma SlotsOut(flushed: seq<Work>, heaps: map<string, seq<Held>>, host: string)
    ensures SlotIn(flushed, heaps, host).out == OfHost(flushed, host)
  {
  }

  lemma SentinelIsNothing(consumers: int)
    ensures forall slot, host :: SlotStep(consumers, slot, Sentinel, host) == slot
  {
  }

  /** A waiting item is flushed: its own host's slot empties, the others stay. */
  lemma SlotsAfterRelease(flushed: seq<Work>, heaps: map<string, seq<Held>>, host: string)
    requires host in heaps && |heaps[host]| == 1
    requires heaps[host][0].work.host == host && heaps[host][0].work.unixSecond.Some?
    ensures var flushed', heaps' := flushed + Works(heaps[host]), heaps - {host};
      && SlotIn(flushed', heaps', host) == Slot(Released(SlotIn(flushed, heaps, host)), None)
      && forall h | h != host :: SlotIn(flushed', heaps', h) == SlotIn(flushed, heaps, h)
  {
    var p := heaps[host][0];
    assert heaps[host] == [p];
    WorksOfTwo(p, p);
    forall h ensures OfHost(flushed + [p.work], h) == OfHost(flushed, h) + if h == host then [p.work] else [] {
      OfHostConcat(flushed, [p.work], h);
      OfHostOne(p.work, h);
    }
  }

  lemma NothingHeld(arrived: seq<Work>, flushed: seq<Work>, heaps: map<string, seq<Held>>, host: string)
    requires HostStream(arrived, flushed, heaps, host) && host !in heaps
    ensures SwapsPairs(OfHost(arrived, host), OfHost(flushed, host))
  {
  }

  lemma RestFits(heap: seq<Held>, recvSeq: nat)
    requires KeysFit(heap, recvSeq) && heap != []
    ensures KeysFit(heap[1..], recvSeq)
  {
  }

  lemma KeysFitLater(heap: seq<Held>, recvSeq: nat)
    requires KeysFit(heap, recvSeq)
    ensures KeysFit(heap, recvSeq + 1)
  {
  }

  /** Adding or removing one host changes the number of heaps by one. */
  lemma HeldCount(before: map<string, seq<Held>>, after: map<string, seq<Held>>, host: string)
    requires before - {host} == after - {host}
    ensures |after| - (if host in after then 1 else 0) == |before| - (if host in before then 1 else 0)
  {
    assert |before - {host}| == |before| - (if host in before then 1 else 0) by { HeapsWithout(before, host); }
    assert |after - {host}| == |after| - (if host in after then 1 else 0) by { HeapsWithout(after, host); }
  }

  lemma HeapsWithout(heaps: map<string, seq<Held>>, host: string)
    ensures |heaps - {host}| == |heaps| - (if host in heaps then 1 else 0)
  {
    assert (heaps - {host}).Keys == heaps.Keys - {host};
    assert |heaps - {host}| == |(heaps - {host}).Keys| && |heaps| == |heaps.Keys|;
  }
}
