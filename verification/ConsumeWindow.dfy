/** The rolling ten-minute counters of the idle monitor and their pruned event deques. */
module ConsumeWindow {
  import opened Wrappers

  const MESSAGE_WINDOW_SECONDS := 600

  datatype Unlink = Unlink(at: int, bytes: nat)

  datatype Totals = Totals(messages: nat, unlinks: nat, unlinkBytes: nat)

  // ---- totals over a history of events ------------------------------------

  function MessagesSince(s: seq<int>, cutoff: int): nat {
    if s == [] then 0 else MessagesSince(s[..|s| - 1], cutoff) + if s[|s| - 1] >= cutoff then 1 else 0
  }

  function UnlinksSince(s: seq<Unlink>, cutoff: int): nat {
    if s == [] then 0 else UnlinksSince(s[..|s| - 1], cutoff) + if s[|s| - 1].at >= cutoff then 1 else 0
  }

  function BytesSince(s: seq<Unlink>, cutoff: int): nat {
    if s == [] then 0 else BytesSince(s[..|s| - 1], cutoff) + if s[|s| - 1].at >= cutoff then s[|s| - 1].bytes else 0
  }

  /** What an unpruned monitor would report at `now`. */
  function FullTotals(messages: seq<int>, unlinks: seq<Unlink>, now: int): Totals {
    var cutoff := now - MESSAGE_WINDOW_SECONDS;
    Totals(MessagesSince(messages, cutoff), UnlinksSince(unlinks, cutoff), BytesSince(unlinks, cutoff))
  }

  /** Each message and each unlink of the last ten minutes counts once. */
  lemma TotalsCountEvents(messages: seq<int>, unlinks: seq<Unlink>, now: int)
    ensures var t := FullTotals(messages, unlinks, now);
      && t.messages == |set i: nat | i < |messages| && messages[i] >= now - 600|
      && t.unlinks == |set i: nat | i < |unlinks| && unlinks[i].at >= now - 600|
  {
    MessagesCounted(messages, now - 600);
    UnlinksCounted(unlinks, now - 600);
  }

  lemma {:induction false} MessagesCounted(s: seq<int>, cutoff: int)
    ensures MessagesSince(s, cutoff) == |set i: nat | i < |s| && s[i] >= cutoff|
  {
    if s != [] {
      var n, t := |s| - 1, s[..|s| - 1];
      MessagesCounted(t, cutoff);
      var front := set i: nat | i < |t| && t[i] >= cutoff;
      assert (set i: nat | i < |s| && s[i] >= cutoff) == if s[n] >= cutoff then front + {n} else front;
    }
  }

  lemma {:induction false} UnlinksCounted(s: seq<Unlink>, cutoff: int)
    ensures UnlinksSince(s, cutoff) == |set i: nat | i < |s| && s[i].at >= cutoff|
  {
    if s != [] {
      var n, t := |s| - 1, s[..|s| - 1];
      UnlinksCounted(t, cutoff);
      var front := set i: nat | i < |t| && t[i].at >= cutoff;
      assert (set i: nat | i < |s| && s[i].at >= cutoff) == if s[n].at >= cutoff then front + {n} else front;
    }
  }

  /** The bytes are a sum over the unlinks, in any grouping, of those of the unlinks in the window. */
  lemma BytesAddUp(front: seq<Unlink>, u: Unlink, cutoff: int)
    ensures BytesSince([u], cutoff) == if u.at >= cutoff then u.bytes else 0
    ensures BytesSince(front + [u], cutoff) == BytesSince(front, cutoff) + BytesSince([u], cutoff)
    ensures BytesSince([], cutoff) == 0
  {
    assert [u][..0] == [] && (front + [u])[..|front|] == front;
  }

  /** Dropping a prefix leaves the message count alone exactly when nothing dropped was in the window. */
  lemma {:induction false} DroppedMessages(dropped: seq<int>, kept: seq<int>, cutoff: int)
    ensures MessagesSince(dropped + kept, cutoff) == MessagesSince(dropped, cutoff) + MessagesSince(kept, cutoff)
    ensures MessagesSince(dropped, cutoff) == 0 <==> forall i | 0 <= i < |dropped| :: dropped[i] < cutoff
  {
    if kept != [] {
      DroppedMessages(dropped, kept[..|kept| - 1], cutoff);
      assert (dropped + kept)[..|dropped + kept| - 1] == dropped + kept[..|kept| - 1];
    } else {
      assert dropped + kept == dropped;
      if dropped != [] {
        DroppedMessages(dropped[..|dropped| - 1], [], cutoff);
      }
    }
  }

  lemma {:induction false} DroppedUnlinks(dropped: seq<Unlink>, kept: seq<Unlink>, cutoff: int)
    ensures UnlinksSince(dropped + kept, cutoff) == UnlinksSince(dropped, cutoff) + UnlinksSince(kept, cutoff)
    ensures BytesSince(dropped + kept, cutoff) == BytesSince(dropped, cutoff) + BytesSince(kept, cutoff)
    ensures UnlinksSince(dropped, cutoff) == 0 <==> forall i | 0 <= i < |dropped| :: dropped[i].at < cutoff
    ensures UnlinksSince(dropped, cutoff) == 0 ==> BytesSince(dropped, cutoff) == 0
  {
    if kept != [] {
      DroppedUnlinks(dropped, kept[..|kept| - 1], cutoff);
      assert (dropped + kept)[..|dropped + kept| - 1] == dropped + kept[..|kept| - 1];
    } else {
      assert dropped + kept == dropped;
      if dropped != [] {
        DroppedUnlinks(dropped[..|dropped| - 1], [], cutoff);
      }
    }
  }

  /** Totals without a dropped prefix of each deque are the full ones exactly when no dropped event is in the window. */
  lemma PrunedTotals(dropped: seq<int>, messages: seq<int>, droppedUnlinks: seq<Unlink>, unlinks: seq<Unlink>, now: int)
    ensures FullTotals(messages, unlinks, now) == FullTotals(dropped + messages, droppedUnlinks + unlinks, now) <==>
      && (forall i | 0 <= i < |dropped| :: dropped[i] < now - MESSAGE_WINDOW_SECONDS)
      && (forall i | 0 <= i < |droppedUnlinks| :: droppedUnlinks[i].at < now - MESSAGE_WINDOW_SECONDS)
  {
    DroppedMessages(dropped, messages, now - MESSAGE_WINDOW_SECONDS);
    DroppedUnlinks(droppedUnlinks, unlinks, now - MESSAGE_WINDOW_SECONDS);
  }

  /** Pop from the front while the front is older than `cutoff`. */
  function DropOldMessages(s: seq<int>, cutoff: int): seq<int> {
    if s != [] && s[0] < cutoff then DropOldMessages(s[1..], cutoff) else s
  }

  function DropOldUnlinks(s: seq<Unlink>, cutoff: int): seq<Unlink> {
    if s != [] && s[0].at < cutoff then DropOldUnlinks(s[1..], cutoff) else s
  }

  lemma {:induction false} DropOldMessagesIsSuffix(s: seq<int>, cutoff: int) returns (k: nat)
    ensures k <= |s| && DropOldMessages(s, cutoff) == s[k..] && forall i | 0 <= i < k :: s[i] < cutoff
    ensures k < |s| ==> s[k] >= cutoff
  {
    k := 0;
    if s != [] && s[0] < cutoff {
      var rest := DropOldMessagesIsSuffix(s[1..], cutoff);
      k := rest + 1;
      assert s[1..][rest..] == s[k..];
      assert forall i | 1 <= i < k :: s[i] == s[1..][i - 1];
    }
  }

  lemma {:induction false} DropOldUnlinksIsSuffix(s: seq<Unlink>, cutoff: int) returns (k: nat)
    ensures k <= |s| && DropOldUnlinks(s, cutoff) == s[k..] && forall i | 0 <= i < k :: s[i].at < cutoff
    ensures k < |s| ==> s[k].at >= cutoff
  {
    k := 0;
    if s != [] && s[0].at < cutoff {
      var rest := DropOldUnlinksIsSuffix(s[1..], cutoff);
      k := rest + 1;
      assert s[1..][rest..] == s[k..];
      assert forall i | 1 <= i < k :: s[i] == s[1..][i - 1];
    }
  }

  /** `deque` is `all` without a prefix that is older than any window ending at `latest` or later. */
  ghost predicate PrunedMessages(deque: seq<int>, all: seq<int>, latest: int) {
    && |deque| <= |all| && deque == all[|all| - |deque|..]
    && (forall i | 0 <= i < |all| :: all[i] <= latest)
    && (forall i | 0 <= i < |all| - |deque| :: all[i] < latest - MESSAGE_WINDOW_SECONDS)
  }

  ghost predicate PrunedUnlinks(deque: seq<Unlink>, all: seq<Unlink>, latest: int) {
    && |deque| <= |all| && deque == all[|all| - |deque|..]
    && (forall i | 0 <= i < |all| :: all[i].at <= latest)
    && (forall i | 0 <= i < |all| - |deque| :: all[i].at < latest - MESSAGE_WINDOW_SECONDS)
  }

  lemma PushMessage(deque: seq<int>, all: seq<int>, latest: int, now: int, latest': int)
    requires PrunedMessages(deque, all, latest) && latest <= latest' && now <= latest'
    ensures PrunedMessages(DropOldMessages(deque + [now], now - MESSAGE_WINDOW_SECONDS), all + [now], latest')
  {
    var k := DropOldMessagesIsSuffix(deque + [now], now - MESSAGE_WINDOW_SECONDS);
    var dropped := |all| - |deque|;
    assert deque + [now] == (all + [now])[dropped..];
    assert (deque + [now])[k..] == (all + [now])[dropped + k..];
    assert forall i | dropped <= i < dropped + k :: (all + [now])[i] == (deque + [now])[i - dropped];
  }

  lemma PushUnlinks(deque: seq<Unlink>, all: seq<Unlink>, latest: int, event: seq<Unlink>, now: int, latest': int)
    requires PrunedUnlinks(deque, all, latest) && latest <= latest' && now <= latest'
    requires forall u | u in event :: u.at == now
    ensures PrunedUnlinks(DropOldUnlinks(deque + event, now - MESSAGE_WINDOW_SECONDS), all + event, latest')
  {
    var k := DropOldUnlinksIsSuffix(deque + event, now - MESSAGE_WINDOW_SECONDS);
    var dropped := |all| - |deque|;
    assert deque + event == (all + event)[dropped..];
    assert (deque + event)[k..] == (all + event)[dropped + k..];
    assert forall i | dropped <= i < dropped + k :: (all + event)[i] == (deque + event)[i - dropped];
  }

  // ---- the monitor's deques -----------------------------------------------

  class Window {
    var messageTimestamps: seq<int>
    var unlinkEvents: seq<Unlink>

    /** Every event ever recorded, and the latest clock reading among them. */
    ghost var allMessages: seq<int>
    ghost var allUnlinks: seq<Unlink>
    ghost var latest: int

    ghost predicate Valid()
      reads this
    {
      PrunedMessages(messageTimestamps, allMessages, latest) && PrunedUnlinks(unlinkEvents, allUnlinks, latest)
    }

    /** A window over an empty history; `start` is a clock reading no event precedes. */
    constructor (ghost start: int)
      ensures Valid() && allMessages == [] && allUnlinks == [] && latest == start
    {
      messageTimestamps, unlinkEvents := [], [];
      allMessages, allUnlinks, latest := [], [], start;
    }

    /** Record one archived payload (and the unlink it made) at clock reading `now`, then prune both deques. */
    method Record(now: int, unlinked: Option<nat>)
      requires Valid()
      modifies this
      ensures Valid()
      ensures allMessages == old(allMessages) + [now]
      ensures allUnlinks == old(allUnlinks) + if unlinked.Some? then [Unlink(now, unlinked.value)] else []
      ensures latest == if old(latest) < now then now else old(latest)
      ensures messageTimestamps == DropOldMessages(old(messageTimestamps) + [now], now - MESSAGE_WINDOW_SECONDS)
      ensures unlinkEvents ==
        DropOldUnlinks(old(unlinkEvents) + if unlinked.Some? then [Unlink(now, unlinked.value)] else [],
                       now - MESSAGE_WINDOW_SECONDS)
      ensures messageTimestamps != [] && messageTimestamps[0] >= now - MESSAGE_WINDOW_SECONDS
      ensures unlinkEvents != [] ==> unlinkEvents[0].at >= now - MESSAGE_WINDOW_SECONDS
    {
      hide PrunedMessages, PrunedUnlinks;
      var cutoff := now - MESSAGE_WINDOW_SECONDS;
      var event := if unlinked.Some? then [Unlink(now, unlinked.value)] else [];
      messageTimestamps := messageTimestamps + [now];
      unlinkEvents := unlinkEvents + event;
      ghost var pushed, pushedUnlinks := messageTimestamps, unlinkEvents;
      while messageTimestamps != [] && messageTimestamps[0] < cutoff
        invariant unlinkEvents == pushedUnlinks && unchanged(`allMessages, `allUnlinks, `latest)
        invariant DropOldMessages(messageTimestamps, cutoff) == DropOldMessages(pushed, cutoff)
        decreases |messageTimestamps|
      {
        messageTimestamps := messageTimestamps[1..];
      }
      while unlinkEvents != [] && unlinkEvents[0].at < cutoff
        invariant messageTimestamps == DropOldMessages(pushed, cutoff) && unchanged(`allMessages, `allUnlinks, `latest)
        invariant DropOldUnlinks(unlinkEvents, cutoff) == DropOldUnlinks(pushedUnlinks, cutoff)
        decreases |unlinkEvents|
      {
        unlinkEvents := unlinkEvents[1..];
      }
      var k := DropOldMessagesIsSuffix(pushed, cutoff);
      var j := DropOldUnlinksIsSuffix(pushedUnlinks, cutoff);
      assert pushed[|pushed| - 1] == now;
      latest := if latest < now then now else latest;
      PushMessage(old(messageTimestamps), allMessages, old(latest), now, latest);
      PushUnlinks(old(unlinkEvents), allUnlinks, old(latest), event, now, latest);
      allMessages, allUnlinks := allMessages + [now], allUnlinks + event;
    }

    /**
     The three totals of the window ending at `now`. They are those of the full history when `now` is
     not before any recorded event; in general they are exactly when nothing pruned is in the window.
     */
    method ConsumeWindowTotals(now: int) returns (t: Totals)
      requires Valid()
      ensures now >= latest ==> t == FullTotals(allMessages, allUnlinks, now)
      ensures t == FullTotals(messageTimestamps, unlinkEvents, now)
      ensures t == FullTotals(allMessages, allUnlinks, now) <==>
        && (forall i | 0 <= i < |allMessages| - |messageTimestamps| :: allMessages[i] < now - MESSAGE_WINDOW_SECONDS)
        && (forall i | 0 <= i < |allUnlinks| - |unlinkEvents| :: allUnlinks[i].at < now - MESSAGE_WINDOW_SECONDS)
    {
      t := SumWindow(messageTimestamps, unlinkEvents, now);
      ghost var dropped := allMessages[..|allMessages| - |messageTimestamps|];
      ghost var droppedUnlinks := allUnlinks[..|allUnlinks| - |unlinkEvents|];
      assert allMessages == dropped + messageTimestamps && allUnlinks == droppedUnlinks + unlinkEvents;
      PrunedTotals(dropped, messageTimestamps, droppedUnlinks, unlinkEvents, now);
    }
  }

  /** The counting loops of the report. */
  method SumWindow(messages: seq<int>, unlinks: seq<Unlink>, now: int) returns (t: Totals)
    ensures t == FullTotals(messages, unlinks, now)
  {
    var cutoff := now - MESSAGE_WINDOW_SECONDS;
    var count, unlinkCount, unlinkBytes := 0, 0, 0;
    for i := 0 to |messages|
      invariant count == MessagesSince(messages[..i], cutoff)
    {
      assert messages[..i + 1][..i] == messages[..i];
      if messages[i] >= cutoff {
        count := count + 1;
      }
    }
    for i := 0 to |unlinks|
      invariant unlinkCount == UnlinksSince(unlinks[..i], cutoff)
      invariant unlinkBytes == BytesSince(unlinks[..i], cutoff)
    {
      assert unlinks[..i + 1][..i] == unlinks[..i];
      if unlinks[i].at >= cutoff {
        unlinkCount := unlinkCount + 1;
        unlinkBytes := unlinkBytes + unlinks[i].bytes;
      }
    }
    assert messages[..|messages|] == messages && unlinks[..|unlinks|] == unlinks;
    t := Totals(count, unlinkCount, unlinkBytes);
  }

  /**
   A clock that steps back makes pruning visible. After payloads at 0, 700 and 50 the deque has lost
   the event at 0, which the window ending at the last append would still count.
   */
  lemma ClockStepBackLosesAnEvent() returns (deque: seq<int>, history: seq<int>)
    ensures history == [0, 700, 50]
    ensures deque == DropOldMessages(DropOldMessages(DropOldMessages([0], -600) + [700], 100) + [50], -550)
    ensures FullTotals(deque, [], 50).messages < FullTotals(history, [], 50).messages
  {
    history, deque := [0] + [700, 50], [700, 50];
    assert DropOldMessages([0, 700], 100) == [700] by {
      assert [0, 700][1..] == [700];
    }
    DroppedMessages([0], [700, 50], -550);
  }
}
