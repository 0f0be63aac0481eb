/**
 Where the protocol leads when nothing disturbs it, and what its guards stop: deliveries are archived and
 acked, or not archived and nacked; a rebound session settles nothing.
 */
module AckPaths {
  import opened Wrappers
  import opened AckProtocol
  import opened AckSafety

  // ---- what an undisturbed item comes to ----------------------------------

  /** `states` follows `events`, each an enabled step. */
  ghost predicate IsPath(states: seq<State>, events: seq<Event>) {
    && |states| == |events| + 1
    && forall i | 0 <= i < |events| :: Enabled(states[i], events[i]) && states[i + 1] == Step(states[i], events[i])
  }

  /** Since `st` nothing but the stage of token `id`, and perhaps the archive, has moved. */
  predicate Along(st: State, now: State, id: TokenId, stage: Stage) {
    && SameBroker(st, now) && now.executed == st.executed && now.sessions == st.sessions && st.archive <= now.archive
    && id in st.tokens && id in now.tokens && now.tokens[id] == st.tokens[id].(stage := stage)
  }

  lemma AlongTake(st: State, now: State, id: TokenId)
    requires Along(st, now, id, Queued)
    ensures Enabled(now, Take(id)) && Along(st, Step(now, Take(id)), id, Archiving)
  {
    hide Settle, CallbackStale, Guard, Tag, Requeued, OnLiveConnection;
  }

  lemma AlongArchive(st: State, now: State, id: TokenId)
    requires Along(st, now, id, Archiving)
    ensures Enabled(now, ArchiveSucceeds(id))
    ensures Along(st, Step(now, ArchiveSucceeds(id)), id, Settling(Ack, NothingRead))
    ensures st.tokens[id].item.msg in Step(now, ArchiveSucceeds(id)).archive
  {
    hide Settle, CallbackStale, Guard, Tag, Requeued, OnLiveConnection;
  }

  lemma AlongFailure(st: State, now: State, id: TokenId)
    requires Along(st, now, id, Archiving)
    ensures Enabled(now, ArchiveFails(id)) && Step(now, ArchiveFails(id)).archive == now.archive
    ensures Along(st, Step(now, ArchiveFails(id)), id, Settling(Nack, NothingRead))
  {
    hide Settle, CallbackStale, Guard, Tag, Requeued, OnLiveConnection;
  }

  lemma AlongRead(st: State, now: State, id: TokenId, v: Verdict, r: Snapshot)
    requires Along(st, now, id, Settling(v, r)) && !r.AllRead? && st.tokens[id].item.session in st.sessions
    ensures Enabled(now, ReadField(id)) && Step(now, ReadField(id)).archive == now.archive
    ensures Along(st, Step(now, ReadField(id)), id, Settling(v, ReadNext(st.sessions[st.tokens[id].item.session], r)))
  {
    hide Settle, CallbackStale, Guard, Tag, Requeued, OnLiveConnection, ReadNext;
  }

  lemma AlongDecide(st: State, now: State, id: TokenId, v: Verdict, r: Snapshot)
    requires Along(st, now, id, Settling(v, r)) && r.AllRead? && r.conn.Some? && r.chan.Some? && !r.reconnect
    requires r.generation == st.tokens[id].item.ackGeneration
    ensures Enabled(now, Decide(id, true)) && Step(now, Decide(id, true)).archive == now.archive
    ensures Along(st, Step(now, Decide(id, true)), id, Scheduled(v, r.conn.value, r.chan.value, r.generation))
  {
    hide Settle, CallbackStale, Tag, Requeued, OnLiveConnection;
  }

  lemma AlongCallback(st: State, now: State, id: TokenId, v: Verdict, conn: Connection, chan: Channel)
    requires id in st.tokens && Along(st, now, id, Scheduled(v, conn, chan, st.tokens[id].item.ackGeneration))
    requires var t := st.tokens[id];
      && t.item.session in st.sessions && st.sessions[t.item.session].io.Idle?
      && !CallbackStale(st.sessions[t.item.session], conn, t.item.ackGeneration)
      && chan == t.item.origin && OnLiveConnection(st, chan) && OriginKey(t) in st.unacked
      && st.unacked[OriginKey(t)] == t.item.msg
    ensures Enabled(now, RunCallback(id))
    ensures var t, end := st.tokens[id], Step(now, RunCallback(id));
      && id !in end.tokens && end.archive == now.archive && OriginKey(t) !in end.unacked
      && (if v == Ack then t.item.msg in end.removed else t.item.msg in end.ready && end.removed == st.removed)
      && end.executed == st.executed + [Executed(OriginKey(t), t.item.msg, v, t.item.origin, Settled)]
  {
    hide Tag, Requeued, Guard;
    assert EffectOf(now.(tokens := now.tokens - {id}), OriginKey(st.tokens[id])) == Settled;
  }

  function AckEvents(id: TokenId): seq<Event> {
    [Take(id), ArchiveSucceeds(id)] + SettleEvents(id)
  }

  function NackEvents(id: TokenId): seq<Event> {
    [Take(id), ArchiveFails(id)] + SettleEvents(id)
  }

  function SettleEvents(id: TokenId): seq<Event> {
    [ReadField(id), ReadField(id), ReadField(id), ReadField(id), Decide(id, true), RunCallback(id)]
  }

  /** The item is queued, and its session stays bound to the live connection that delivered it, and idle. */
  predicate Undisturbed(st: State, id: TokenId) {
    && id in st.tokens && st.tokens[id].item.session in st.sessions
    && var x := st.sessions[st.tokens[id].item.session];
    && Stable(x, st.tokens[id].item.ackGeneration) && x.io.Idle? && !x.reconnectRequested
    && OnLiveConnection(st, st.tokens[id].item.origin)
  }

  /** From a verdict to its execution. */
  lemma VerdictIsExecuted(st: State, now: State, id: TokenId, v: Verdict) returns (states: seq<State>)
    requires Inv(st) && Undisturbed(st, id) && Along(st, now, id, Settling(v, NothingRead))
    ensures IsPath(states, SettleEvents(id)) && states[0] == now
    ensures var t, end := st.tokens[id], states[6];
      && id !in end.tokens && end.archive == now.archive && OriginKey(t) !in end.unacked
      && (if v == Ack then t.item.msg in end.removed else t.item.msg in end.ready && end.removed == st.removed)
      && end.executed == st.executed + [Executed(OriginKey(t), t.item.msg, v, t.item.origin, Settled)]
  {
    hide Inv, Step, Enabled, Along, SameBroker, CustodyInv;
    UndisturbedFacts(st, id);
    var x := st.sessions[st.tokens[id].item.session];
    AlongRead(st, now, id, v, NothingRead);
    var s1 := Step(now, ReadField(id));
    AlongRead(st, s1, id, v, ConnectionRead(x.connection));
    var s2 := Step(s1, ReadField(id));
    AlongRead(st, s2, id, v, ChannelRead(x.connection, x.channel));
    var s3 := Step(s2, ReadField(id));
    AlongRead(st, s3, id, v, GenerationRead(x.connection, x.channel, x.generation));
    var s4 := Step(s3, ReadField(id));
    AlongDecide(st, s4, id, v, AllRead(x.connection, x.channel, x.generation, x.reconnectRequested));
    var s5 := Step(s4, Decide(id, true));
    AlongCallback(st, s5, id, v, x.connection.value, x.channel.value);
    states := [now, s1, s2, s3, s4, s5, Step(s5, RunCallback(id))];
  }

  lemma PathsJoin(a: seq<State>, as_: seq<Event>, b: seq<State>, bs: seq<Event>)
    requires IsPath(a, as_) && IsPath(b, bs) && a[|as_|] == b[0]
    ensures IsPath(a + b[1..], as_ + bs) && (a + b[1..])[0] == a[0]
    ensures (a + b[1..])[|as_| + |bs|] == b[|bs|]
  {
    hide Step, Enabled;
    var states, events := a + b[1..], as_ + bs;
    forall i | 0 <= i < |events| ensures Enabled(states[i], events[i]) && states[i + 1] == Step(states[i], events[i]) {
      if i >= |as_| {
        assert states[i] == b[i - |as_|] && states[i + 1] == b[i - |as_| + 1];
      }
    }
  }

  /**
   The guards are not in the way: a queued item whose session stays bound to a live connection can
   always be archived and then acked, on the channel that delivered it.
   */
  lemma UndisturbedItemIsAcked(st: State, id: TokenId) returns (states: seq<State>)
    requires Inv(st) && Undisturbed(st, id) && st.tokens[id].stage == Queued
    ensures IsPath(states, AckEvents(id)) && states[0] == st
    ensures var t, end := st.tokens[id], states[8];
      && t.item.msg in end.archive && t.item.msg in end.removed && id !in end.tokens
      && end.executed == st.executed + [Executed(OriginKey(t), t.item.msg, Ack, t.item.origin, Settled)]
  {
    hide Inv, Step, Enabled, Along, SameBroker;
    AlongStart(st, id);
    AlongTake(st, st, id);
    var taken := Step(st, Take(id));
    AlongArchive(st, taken, id);
    var archived := Step(taken, ArchiveSucceeds(id));
    var rest := VerdictIsExecuted(st, archived, id, Ack);
    PathsJoin([st, taken, archived], [Take(id), ArchiveSucceeds(id)], rest, SettleEvents(id));
    states := [st, taken, archived] + rest[1..];
  }

  /** An archive that fails is answered by a nack on the same channel, and the message is ready again. */
  lemma UndisturbedItemIsRequeued(st: State, id: TokenId) returns (states: seq<State>)
    requires Inv(st) && Undisturbed(st, id) && st.tokens[id].stage == Queued
    ensures IsPath(states, NackEvents(id)) && states[0] == st
    ensures var t, end := st.tokens[id], states[8];
      && t.item.msg in end.ready && OriginKey(t) !in end.unacked && id !in end.tokens
      && end.removed == st.removed && end.archive == st.archive
      && end.executed == st.executed + [Executed(OriginKey(t), t.item.msg, Nack, t.item.origin, Settled)]
  {
    hide Inv, Step, Enabled, Along, SameBroker;
    AlongStart(st, id);
    AlongTake(st, st, id);
    TakingArchivesNothing(st, id);
    var taken := Step(st, Take(id));
    AlongFailure(st, taken, id);
    var failed := Step(taken, ArchiveFails(id));
    var rest := VerdictIsExecuted(st, failed, id, Nack);
    PathsJoin([st, taken, failed], [Take(id), ArchiveFails(id)], rest, SettleEvents(id));
    states := [st, taken, failed] + rest[1..];
  }

  lemma TakingArchivesNothing(st: State, id: TokenId)
    requires Enabled(st, Take(id))
    ensures Step(st, Take(id)).archive == st.archive
  {
  }

  lemma AlongStart(st: State, id: TokenId)
    requires id in st.tokens && st.tokens[id].stage == Queued
    ensures Along(st, st, id, Queued)
  {
  }

  lemma UndisturbedFacts(st: State, id: TokenId)
    requires Inv(st) && id in st.tokens
    requires Stable(st.sessions[st.tokens[id].item.session], st.tokens[id].item.ackGeneration)
    requires OnLiveConnection(st, st.tokens[id].item.origin)
    ensures var t := st.tokens[id];
      && t.item.session in st.sessions
      && BoundTo(st.connOf, st.sessions[t.item.session].connection, st.sessions[t.item.session].channel, t.item.origin)
      && OriginKey(t) in st.unacked && st.unacked[OriginKey(t)] == t.item.msg
  {
    hide BrokerInv, HistoryInv, ArchiveInv;
    HeldIsOwed(st, Thread(id));
    assert TokenOk(st.connOf, st.sessions[st.tokens[id].item.session], st.tokens[id]);
  }

  // ---- the synchronous path -----------------------------------------------

  /** A delivery handled on the I/O thread is archived and then acked, on the channel that delivered it. */
  lemma SyncDeliveryIsAcked(st: State, s: SessionId)
    requires Inv(st) && s in st.sessions && st.sessions[s].io.OnMessage? && OnLiveConnection(st, st.sessions[s].io.on)
    ensures Enabled(st, SyncArchive(s)) && Enabled(Step(st, SyncArchive(s)), SyncAck(s))
    ensures var x, end := st.sessions[s].io, Step(Step(st, SyncArchive(s)), SyncAck(s));
      && x.msg in end.archive && x.msg in end.removed && (x.on, x.tag) !in end.unacked && end.ready == st.ready
      && end.sessions[s].io.Idle?
  {
    hide CustodyInv, GenerationInv, HistoryInv, ArchiveInv, Requeued, Tag;
    OnMessageIsOwed(st, s);
  }

  /** Or nacked, which makes it ready again. */
  lemma SyncDeliveryIsRequeued(st: State, s: SessionId)
    requires Inv(st) && s in st.sessions && st.sessions[s].io.OnMessage? && OnLiveConnection(st, st.sessions[s].io.on)
    ensures Enabled(st, DirectNack(s))
    ensures var x, end := st.sessions[s].io, Step(st, DirectNack(s));
      && x.msg in end.ready && (x.on, x.tag) !in end.unacked && end.removed == st.removed
      && end.archive == st.archive && end.sessions[s].io.Idle?
  {
    hide CustodyInv, GenerationInv, HistoryInv, ArchiveInv, Requeued, Tag;
    OnMessageIsOwed(st, s);
  }

  lemma OnMessageIsOwed(st: State, s: SessionId)
    requires Inv(st) && s in st.sessions && st.sessions[s].io.OnMessage? && OnLiveConnection(st, st.sessions[s].io.on)
    ensures var x := st.sessions[s].io; (x.on, x.tag) in st.unacked && st.unacked[(x.on, x.tag)] == x.msg
  {
    hide BrokerInv, HistoryInv, ArchiveInv, GenerationInv;
    HeldIsOwed(st, IoThread(s));
  }

  // ---- binding ------------------------------------------------------------

  function BindEvents(s: SessionId, c: Option<Connection>, ch: Option<Channel>): seq<Event> {
    [BeginBind(s, c, ch), BindWrite(s), BindWrite(s), BindWrite(s), BindWrite(s)]
  }

  /**
   What other threads see of a `bind`: first the connection, then the channel, then the next generation,
   and last that no reconnect is wanted any more.
   */
  lemma BindCompletes(st: State, s: SessionId, c: Option<Connection>, ch: Option<Channel>) returns (states: seq<State>)
    requires SessionEnabled(st, BeginBind(s, c, ch))
    ensures IsPath(states, BindEvents(s, c, ch)) && states[0] == st
    ensures var x := st.sessions[s];
      && states[1] == WithSession(st, s, x.(io := Binding(c, ch, 0)))
      && states[2] == WithSession(st, s, x.(connection := c, io := Binding(c, ch, 1)))
      && states[3] == WithSession(st, s, x.(connection := c, channel := ch, io := Binding(c, ch, 2)))
      && states[4] == WithSession(st, s, Session(c, ch, x.generation + 1, x.reconnectRequested, Binding(c, ch, 3)))
      && states[5] == WithSession(st, s, Session(c, ch, x.generation + 1, false, Idle))
  {
    hide Step, Enabled, WithSession, SessionEnabled;
    BindBegins(st, s, c, ch);
    var x := st.sessions[s];
    var x1 := x.(io := Binding(c, ch, 0));
    var x2, x3 := WriteNext(x1), WriteNext(WriteNext(x1));
    OneWrite(st, s, x1);
    OneWrite(st, s, x2);
    OneWrite(st, s, x3);
    OneWrite(st, s, WriteNext(x3));
    states := [st, WithSession(st, s, x1), WithSession(st, s, x2), WithSession(st, s, x3),
               WithSession(st, s, WriteNext(x3)), WithSession(st, s, WriteNext(WriteNext(x3)))];
  }

  lemma BindBegins(st: State, s: SessionId, c: Option<Connection>, ch: Option<Channel>)
    requires SessionEnabled(st, BeginBind(s, c, ch))
    ensures s in st.sessions && Enabled(st, BeginBind(s, c, ch))
    ensures Step(st, BeginBind(s, c, ch)) == WithSession(st, s, st.sessions[s].(io := Binding(c, ch, 0)))
  {
  }

  lemma OneWrite(st: State, s: SessionId, x: Session)
    requires s in st.sessions && x.io.Binding?
    ensures var bound := WithSession(st, s, x);
      Enabled(bound, BindWrite(s)) && Step(bound, BindWrite(s)) == WithSession(st, s, WriteNext(x))
  {
    hide WriteNext;
    assert st.sessions[s := x][s := WriteNext(x)] == st.sessions[s := WriteNext(x)];
  }

  // ---- what the guards stop -----------------------------------------------

  /**
   A callback settles its delivery exactly when its session has the connection and the generation that
   were read, and no reconnect is wanted; otherwise only the item goes.
   */
  lemma CallbackSettlesIff(st: State, id: TokenId)
    requires TokenEnabled(st, RunCallback(id))
    ensures var t := st.tokens[id];
      var x, end, without := st.sessions[t.item.session], TokenStep(st, RunCallback(id)), st.tokens - {id};
      && end.tokens == without && end.sessions == st.sessions && end.archive == st.archive
      && if x.generation == t.stage.generation && !x.reconnectRequested && x.connection == Some(t.stage.conn)
         then
           |end.executed| == |st.executed| + 1
           && var last := end.executed[|st.executed|];
              last == Executed(OriginKey(t), t.item.msg, t.stage.verdict, t.stage.chan, last.effect)
         else end == st.(tokens := without)
  {
    hide OnLiveConnection;
  }

  /**
   A verdict is scheduled exactly when the connection and the channel were there, no reconnect was wanted,
   the generation read is the one stamped on the item, if one is, and the connection is usable; otherwise
   the item goes, and nothing else.
   */
  lemma DecideSchedulesIff(st: State, id: TokenId, usable: bool)
    requires TokenEnabled(st, Decide(id, usable))
    ensures var t, end := st.tokens[id], TokenStep(st, Decide(id, usable));
      var AllRead(c, ch, generation, reconnect) := t.stage.read;
      if c.Some? && ch.Some? && !reconnect && usable
         && (t.item.ackGeneration == 0 || t.item.ackGeneration == generation)
      then
        end == st.(tokens := st.tokens[id :=
          t.(stage := Scheduled(t.stage.verdict, c.value, ch.value, generation))])
      else end == st.(tokens := st.tokens - {id})
  {
  }
}
