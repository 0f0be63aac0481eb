/** Safety of every run of the consume/archive/acknowledge protocol. */
module AckSafety {
  import opened Wrappers
  import opened AckProtocol

  // ---- invariants ---------------------------------------------------------

  /** Each published message is in exactly one broker place. */
  ghost predicate Balanced(published: set<Message>, ready: set<Message>, unacked: map<Key, Message>,
      removed: set<Message>) {
    && published == ready + unacked.Values + removed
    && ready !! removed
    && (forall k | k in unacked :: unacked[k] !in ready && unacked[k] !in removed)
    && (forall k, k' | k in unacked && k' in unacked && unacked[k] == unacked[k'] :: k == k')
  }

  /** The books balance, and an unacked message is on a live connection. */
  ghost predicate BrokerInv(st: State) {
    && st.live <= st.everOpened
    && (forall ch | ch in st.connOf :: st.connOf[ch] in st.everOpened)
    && Balanced(st.published, st.ready, st.unacked, st.removed)
    && (forall k | k in st.unacked :: OnLiveConnection(st, k.0) && k.1 < Tag(st, k.0))
  }

  /** `s` is past no part of a rebinding of generation `g`: its fields are those of generation `g`. */
  predicate Stable(x: Session, g: nat) {
    x.generation == g && !(x.io.Binding? && x.io.written < 3)
  }

  type Channels = map<Channel, Connection>

  predicate BoundTo(connOf: Channels, conn: Option<Connection>, chan: Option<Channel>, origin: Channel) {
    chan == Some(origin) && origin in connOf && conn == Some(connOf[origin])
  }

  /** What an archive thread has read are the fields that delivered its item. */
  predicate ReadAgrees(connOf: Channels, t: Token) {
    match t.stage
    case Settling(_, r) =>
      && (r.ConnectionRead? ==> t.item.origin in connOf && r.conn == Some(connOf[t.item.origin]))
      && (!r.NothingRead? && !r.ConnectionRead? ==> BoundTo(connOf, r.conn, r.chan, t.item.origin))
    case Scheduled(_, c, ch, _) => BoundTo(connOf, Some(c), Some(ch), t.item.origin)
    case _ => true
  }

  /** As long as the session is stable at the item's generation, all reads agree with its origin. */
  predicate TokenOk(connOf: Channels, x: Session, t: Token) {
    && 1 <= t.item.ackGeneration <= x.generation
    && (t.stage.Scheduled? ==> t.stage.generation == t.item.ackGeneration)
    && (Stable(x, t.item.ackGeneration) ==>
      BoundTo(connOf, x.connection, x.channel, t.item.origin) && ReadAgrees(connOf, t))
  }

  predicate SessionOk(connOf: Channels, x: Session) {
    && (x.io.Binding? ==>
          && x.io.conn.Some? == x.io.chan.Some?
          && x.io.written <= 3
          && (x.io.chan.Some? ==> BoundTo(connOf, x.io.conn, x.io.chan, x.io.chan.value))
          && (x.io.written >= 1 ==> x.connection == x.io.conn)
          && (x.io.written >= 2 ==> x.channel == x.io.chan)
          && (x.io.written >= 3 ==> x.generation >= 1))
    && (!x.io.Binding? ==>
          && x.connection.Some? == x.channel.Some?
          && (x.channel.Some? ==> x.generation >= 1 && BoundTo(connOf, x.connection, x.channel, x.channel.value)))
    && (x.io.OnMessage? ==> BoundTo(connOf, x.connection, x.channel, x.io.on))
  }

  /** Every item and every captured field belongs to the generation that delivered the item. */
  ghost predicate GenerationInv(st: State) {
    && (forall s | s in st.sessions :: SessionOk(st.connOf, st.sessions[s]))
    && (forall id | id in st.tokens ::
          && st.tokens[id].item.session in st.sessions
          && TokenOk(st.connOf, st.sessions[st.tokens[id].item.session], st.tokens[id]))
    && (forall i | 0 <= i < |st.executed| :: st.executed[i].via == st.executed[i].key.0)
  }

  /** A thread that is responsible for a delivery: an archive thread (or its callback), or an I/O thread. */
  datatype Holder = Thread(id: TokenId) | IoThread(s: SessionId)
  datatype Delivery = Delivery(key: Key, msg: Message)

  function Held(st: State, h: Holder): Option<Delivery> {
    match h
    case Thread(id) =>
      if id in st.tokens then Some(Delivery(OriginKey(st.tokens[id]), st.tokens[id].item.msg)) else None
    case IoThread(s) =>
      if s in st.sessions && st.sessions[s].io.OnMessage? then
        Some(Delivery((st.sessions[s].io.on, st.sessions[s].io.tag), st.sessions[s].io.msg))
      else None
  }

  /** Delivery `d` is still owed a settlement: the broker has it unless its connection is gone. */
  predicate Owed(st: State, d: Delivery) {
    && d.key.1 < Tag(st, d.key.0)
    && d.key.0 in st.connOf
    && (OnLiveConnection(st, d.key.0) ==> d.key in st.unacked && st.unacked[d.key] == d.msg)
  }

  /** Each delivery is held by at most one thread, and what is held is owed. */
  ghost predicate CustodyInv(st: State) {
    && (forall h | Held(st, h).Some? :: Owed(st, Held(st, h).value))
    && (forall h, h' | h != h' && Held(st, h).Some? && Held(st, h').Some? ::
      Held(st, h).value.key != Held(st, h').value.key)
  }

  /** What has been settled is held by nobody, and was known to the broker or its connection was gone. */
  ghost predicate HistoryInv(st: State) {
    && (forall i | 0 <= i < |st.executed| :: st.executed[i].key.1 < Tag(st, st.executed[i].key.0))
    && (forall i | 0 <= i < |st.executed| :: st.executed[i].effect != UnknownTag)
    && (forall i, h | 0 <= i < |st.executed| && Held(st, h).Some? :: st.executed[i].key != Held(st, h).value.key)
    && (forall i, j | 0 <= i < j < |st.executed| :: st.executed[i].key != st.executed[j].key)
  }

  predicate AckPending(t: Token) {
    (t.stage.Settling? || t.stage.Scheduled?) && t.stage.verdict == Ack
  }

  /** Only archived messages are on their way to an ack, have been acked, or have left the broker. */
  ghost predicate ArchiveInv(st: State) {
    && st.removed <= st.archive
    && (forall id | id in st.tokens && AckPending(st.tokens[id]) :: st.tokens[id].item.msg in st.archive)
    && (forall s | s in st.sessions && st.sessions[s].io.OnMessage? && st.sessions[s].io.archived ::
          st.sessions[s].io.msg in st.archive)
    && (forall i | 0 <= i < |st.executed| && st.executed[i].verdict == Ack :: st.executed[i].msg in st.archive)
  }

  ghost predicate Inv(st: State) {
    BrokerInv(st) && GenerationInv(st) && CustodyInv(st) && HistoryInv(st) && ArchiveInv(st)
  }

  // ---- settling a delivery ------------------------------------------------

  lemma ValuesWithout(unacked: map<Key, Message>, key: Key)
    requires key in unacked
    requires forall k, k' | k in unacked && k' in unacked && unacked[k] == unacked[k'] :: k == k'
    ensures unacked.Values == (unacked - {key}).Values + {unacked[key]}
  {
    var rest := unacked - {key};
    forall m | m in unacked.Values ensures m in rest.Values + {unacked[key]} {
      var k :| k in unacked && unacked[k] == m;
      if k != key {
        assert k in rest && rest[k] == m;
      }
    }
  }

  /** What settling leaves alone. */
  lemma SettleFrame(st: State, key: Key, msg: Message, verdict: Verdict, via: Channel)
    ensures var st' := Settle(st, key, msg, verdict, via);
      && st'.published == st.published && st'.everOpened == st.everOpened && st'.live == st.live
      && st'.closedChannels == st.closedChannels && st'.connOf == st.connOf && st'.nextTag == st.nextTag
      && st'.sessions == st.sessions
      && st'.tokens == st.tokens && st'.archive == st.archive
      && st'.executed == st.executed + [Executed(key, msg, verdict, via, EffectOf(st, (via, key.1)))]
  {
  }

  lemma SettlingBalances(published: set<Message>, ready: set<Message>, unacked: map<Key, Message>,
      removed: set<Message>, key: Key)
    requires Balanced(published, ready, unacked, removed) && key in unacked
    ensures Balanced(published, ready + {unacked[key]}, unacked - {key}, removed)
    ensures Balanced(published, ready, unacked - {key}, removed + {unacked[key]})
    ensures (unacked - {key}).Values == unacked.Values - {unacked[key]}
  {
    ValuesWithout(unacked, key);
  }

  lemma DeliveringBalances(published: set<Message>, ready: set<Message>, unacked: map<Key, Message>,
      removed: set<Message>, key: Key, m: Message)
    requires Balanced(published, ready, unacked, removed) && key !in unacked && m in ready
    ensures Balanced(published, ready - {m}, unacked[key := m], removed)
  {
    ValuesWith(unacked, key, m);
  }

  lemma ValuesWith(unacked: map<Key, Message>, key: Key, m: Message)
    requires key !in unacked
    ensures unacked[key := m].Values == unacked.Values + {m}
  {
    var more := unacked[key := m];
    forall v | v in unacked.Values ensures v in more.Values {
      var k :| k in unacked && unacked[k] == v;
      assert k in more && more[k] == v;
    }
    assert key in more && more[key] == m;
  }

  lemma SettledKeepsBroker(st: State, key: Key, msg: Message, verdict: Verdict)
    requires BrokerInv(st) && key in st.unacked && st.unacked[key] == msg && OnLiveConnection(st, key.0)
    ensures BrokerInv(Settle(st, key, msg, verdict, key.0))
    ensures var st' := Settle(st, key, msg, verdict, key.0);
      && msg in st.unacked.Values && st'.unacked.Values == st.unacked.Values - {msg}
      && st'.ready == st.ready + (if verdict == Nack then {msg} else {})
      && st'.removed == st.removed + (if verdict == Ack then {msg} else {})
  {
    hide Balanced, OnLiveConnection;
    SettlingBalances(st.published, st.ready, st.unacked, st.removed, key);
    var st' := Settle(st, key, msg, verdict, key.0);
    assert (key.0, key.1) == key;
    assert st'.connOf == st.connOf && st'.nextTag == st.nextTag && st'.live == st.live
      && st'.closedChannels == st.closedChannels;
    forall k | k in st'.unacked ensures OnLiveConnection(st', k.0) {
      SameLiveness(st, st', k.0);
    }
  }

  lemma SameLiveness(st: State, st': State, ch: Channel)
    requires st'.connOf == st.connOf && st'.live == st.live && st'.closedChannels == st.closedChannels
    ensures OnLiveConnection(st', ch) == OnLiveConnection(st, ch)
  {
  }

  /**
   Settling an owed delivery on its own channel keeps the broker's books. Its tag is known unless the
   channel is gone; then nothing moves, and otherwise exactly its message does, back or away.
   */
  lemma SettleKeepsBroker(st: State, key: Key, msg: Message, verdict: Verdict)
    requires BrokerInv(st) && Owed(st, Delivery(key, msg))
    ensures BrokerInv(Settle(st, key, msg, verdict, key.0))
    ensures EffectOf(st, key) != UnknownTag
    ensures var st' := Settle(st, key, msg, verdict, key.0);
      if EffectOf(st, key) == ChannelGone then SameBroker(st, st')
      else
        && msg in st.unacked.Values && st'.unacked.Values == st.unacked.Values - {msg}
        && st'.ready == st.ready + (if verdict == Nack then {msg} else {})
        && st'.removed == st.removed + (if verdict == Ack then {msg} else {})
  {
    if OnLiveConnection(st, key.0) {
      hide Settle, BrokerInv;
      SettledKeepsBroker(st, key, msg, verdict);
    } else {
      BrokerKeptBySame(st, Settle(st, key, msg, verdict, key.0));
    }
  }

  /** The invariant reads only the broker's books. */
  lemma BrokerKeptBySame(st: State, st': State)
    requires BrokerInv(st) && SameBroker(st, st')
    ensures BrokerInv(st')
  {
    hide OnLiveConnection;
    forall k | k in st'.unacked ensures OnLiveConnection(st', k.0) {
      SameLiveness(st, st', k.0);
    }
  }

  // ---- preservation, one invariant at a time ------------------------------

  /** A callback that is not stale runs on the channel that delivered its item. */
  lemma CallbackChannel(st: State, id: TokenId)
    requires GenerationInv(st) && TokenEnabled(st, RunCallback(id))
    requires !CallbackStale(st.sessions[st.tokens[id].item.session], st.tokens[id].stage.conn,
        st.tokens[id].stage.generation)
    ensures BoundTo(st.connOf, Some(st.tokens[id].stage.conn), Some(st.tokens[id].stage.chan),
        st.tokens[id].item.origin)
  {
    assert TokenOk(st.connOf, st.sessions[st.tokens[id].item.session], st.tokens[id]);
  }

  /** The broker's books are untouched. */
  predicate SameBroker(st: State, st': State) {
    && st'.published == st.published && st'.ready == st.ready && st'.removed == st.removed && st'.unacked == st.unacked
    && st'.everOpened == st.everOpened && st'.live == st.live && st'.closedChannels == st.closedChannels
    && st'.connOf == st.connOf && st'.nextTag == st.nextTag
  }

  predicate TouchesBroker(e: Event) {
    e.Publish? || e.OpenConnection? || e.OpenChannel? || e.CloseChannel? || e.CloseConnection? || e.Deliver?
      || e.SyncAck? || e.DirectNack? || e.RunCallback?
  }

  lemma OthersLeaveBroker(st: State, e: Event)
    requires Enabled(st, e) && !TouchesBroker(e)
    ensures SameBroker(st, Step(st, e)) && Step(st, e).executed == st.executed
  {
    hide Settle, CallbackStale, Guard, OnLiveConnection, EffectOf, WriteNext, ReadNext, Tag, Requeued;
  }

  lemma RequeueingBalances(published: set<Message>, ready: set<Message>, unacked: map<Key, Message>,
                           removed: set<Message>, kept: map<Key, Message>, requeued: set<Message>)
    requires Balanced(published, ready, unacked, removed)
    requires forall k | k in kept :: k in unacked && kept[k] == unacked[k]
    requires forall k | k in unacked && k !in kept :: unacked[k] in requeued
    requires forall m | m in requeued :: exists k :: k in unacked && k !in kept && unacked[k] == m
    ensures Balanced(published, ready + requeued, kept, removed)
    ensures requeued == unacked.Values - kept.Values
  {
    forall m | m in unacked.Values ensures m in kept.Values + requeued {
      var k :| k in unacked && unacked[k] == m;
      if k in kept {
        assert kept[k] == m;
      }
    }
    assert unacked.Values == kept.Values + requeued;
  }

  /**
   Losing a connection keeps the books, and puts back exactly the messages that were unacknowledged on
   it: those and no others leave the unacknowledged ones.
   */
  lemma BrokerKeptByClose(st: State, c: Connection)
    requires BrokerInv(st) && c in st.live
    ensures var st' := BrokerStep(st, CloseConnection(c));
      && BrokerInv(st') && st'.ready == st.ready + (st.unacked.Values - st'.unacked.Values)
      && (forall k | k in st.unacked :: k in st'.unacked <==> !OfConnection(st, k, c))
  {
    hide Balanced;
    var st' := BrokerStep(st, CloseConnection(c));
    RequeueingBalances(st.published, st.ready, st.unacked, st.removed, st'.unacked, Requeued(st, c));
  }

  /** The same for a channel that is closed while its connection lives on. */
  lemma BrokerKeptByCloseChannel(st: State, ch: Channel)
    requires BrokerInv(st) && OnLiveConnection(st, ch)
    ensures var st' := BrokerStep(st, CloseChannel(ch));
      && BrokerInv(st') && st'.ready == st.ready + (st.unacked.Values - st'.unacked.Values)
      && (forall k | k in st.unacked :: k in st'.unacked <==> k.0 != ch)
  {
    hide Balanced;
    var st' := BrokerStep(st, CloseChannel(ch));
    RequeueingBalances(st.published, st.ready, st.unacked, st.removed, st'.unacked, RequeuedFrom(st, ch));
  }

  /**
   A delivery takes one message off the ready ones and puts it under a key that is neither in use nor
   was ever settled.
   */
  lemma BrokerKeptByDeliver(st: State, s: SessionId, m: Message)
    requires BrokerInv(st) && HistoryInv(st) && SessionEnabled(st, Deliver(s, m))
    ensures var st' := SessionStep(st, Deliver(s, m));
      var x := st'.sessions[s].io;
      && BrokerInv(st') && x.OnMessage? && x.msg == m
      && (x.on, x.tag) !in st.unacked && (forall i | 0 <= i < |st.executed| :: st.executed[i].key != (x.on, x.tag))
      && st'.ready + {m} == st.ready && m !in st'.ready
      && st'.unacked.Values == st.unacked.Values + {m} && m !in st.unacked.Values
  {
    var ch := st.sessions[s].channel.value;
    BrokerKeptByUnacked(st, ch, m);
    var tag := Tag(st, ch);
    BrokerKeptBySame(
      st.(ready := st.ready - {m}, unacked := st.unacked[(ch, tag) := m], nextTag := st.nextTag[ch := tag + 1]),
      SessionStep(st, Deliver(s, m)));
    ValuesWith(st.unacked, (ch, tag), m);
  }

  lemma BrokerKeptByUnacked(st: State, ch: Channel, m: Message)
    requires BrokerInv(st) && OnLiveConnection(st, ch) && m in st.ready
    ensures var tag := Tag(st, ch);
      BrokerInv(st.(ready := st.ready - {m}, unacked := st.unacked[(ch, tag) := m],
        nextTag := st.nextTag[ch := tag + 1]))
  {
    hide OnLiveConnection, Balanced;
    var tag := Tag(st, ch);
    var st' := st.(ready := st.ready - {m}, unacked := st.unacked[(ch, tag) := m],
      nextTag := st.nextTag[ch := tag + 1]);
    DeliveringBalances(st.published, st.ready, st.unacked, st.removed, (ch, tag), m);
    forall k | k in st'.unacked ensures OnLiveConnection(st', k.0) {
      SameLiveness(st, st', k.0);
    }
  }

  lemma BrokerKeptByCallback(st: State, id: TokenId)
    requires Inv(st) && TokenEnabled(st, RunCallback(id))
    ensures BrokerInv(TokenStep(st, RunCallback(id)))
  {
    hide BrokerInv, CustodyInv, GenerationInv, HistoryInv, ArchiveInv, Settle, CallbackStale;
    var t := st.tokens[id];
    var without := st.(tokens := st.tokens - {id});
    BrokerKeptBySame(st, without);
    if !CallbackStale(st.sessions[t.item.session], t.stage.conn, t.stage.generation) {
      CallbackChannel(st, id);
      HeldIsOwed(st, Thread(id));
      SettleKeepsBroker(without, OriginKey(t), t.item.msg, t.stage.verdict);
    }
  }

  lemma BrokerKeptByOpening(st: State, e: Event)
    requires BrokerInv(st) && BrokerEnabled(st, e) && (e.Publish? || e.OpenConnection? || e.OpenChannel?)
    ensures BrokerInv(BrokerStep(st, e))
  {
  }

  lemma HeldIsOwed(st: State, h: Holder)
    requires CustodyInv(st) && Held(st, h).Some?
    ensures Owed(st, Held(st, h).value)
  {
  }

  lemma BrokerKeptByDirect(st: State, e: Event)
    requires BrokerInv(st) && CustodyInv(st) && SessionEnabled(st, e) && (e.SyncAck? || e.DirectNack?)
    ensures BrokerInv(SessionStep(st, e))
  {
    hide BrokerInv, CustodyInv, Owed, Settle;
    var d := Held(st, IoThread(e.s)).value;
    var verdict := if e.SyncAck? then Ack else Nack;
    HeldIsOwed(st, IoThread(e.s));
    SettleKeepsBroker(st, d.key, d.msg, verdict);
    BrokerKeptBySame(Settle(st, d.key, d.msg, verdict, d.key.0), SessionStep(st, e));
  }

  lemma BrokerKept(st: State, e: Event)
    requires Inv(st) && Enabled(st, e)
    ensures BrokerInv(Step(st, e))
  {
    hide BrokerInv, CustodyInv, GenerationInv, HistoryInv, ArchiveInv, SameBroker, BrokerStep, SessionStep, TokenStep;
    if !TouchesBroker(e) {
      OthersLeaveBroker(st, e);
      BrokerKeptBySame(st, Step(st, e));
    } else if e.CloseConnection? {
      BrokerKeptByClose(st, e.c);
    } else if e.CloseChannel? {
      BrokerKeptByCloseChannel(st, e.ch);
    } else if e.Deliver? {
      BrokerKeptByDeliver(st, e.s, e.m);
    } else if e.SyncAck? || e.DirectNack? {
      BrokerKeptByDirect(st, e);
    } else if e.RunCallback? {
      BrokerKeptByCallback(st, e.id);
    } else {
      BrokerKeptByOpening(st, e);
    }
  }

  // ---- generations --------------------------------------------------------

  /** One more assignment of `bind` never makes an old item look current. */
  lemma BindWriteKeepsToken(connOf: Channels, x: Session, t: Token)
    requires SessionOk(connOf, x) && x.io.Binding? && TokenOk(connOf, x, t)
    ensures TokenOk(connOf, WriteNext(x), t)
  {
  }

  lemma BindWriteKeepsSession(connOf: Channels, x: Session)
    requires SessionOk(connOf, x) && x.io.Binding?
    ensures SessionOk(connOf, WriteNext(x))
  {
  }

  lemma GenerationKeptByBroker(st: State, e: Event)
    requires GenerationInv(st) && BrokerEnabled(st, e)
    ensures GenerationInv(BrokerStep(st, e))
  {
    var st' := BrokerStep(st, e);
    forall s | s in st'.sessions ensures SessionOk(st'.connOf, st'.sessions[s]) {
      assert SessionOk(st.connOf, st.sessions[s]);
    }
    forall id | id in st'.tokens
      ensures TokenOk(st'.connOf, st'.sessions[st'.tokens[id].item.session], st'.tokens[id]) {
      assert TokenOk(st.connOf, st.sessions[st.tokens[id].item.session], st.tokens[id]);
    }
  }

  /** The session and the tokens after a session step, for the part the generations depend on. */
  lemma SessionStepShape(st: State, e: Event)
    requires GenerationInv(st) && SessionEnabled(st, e)
    ensures var st' := SessionStep(st, e);
      && st'.connOf == st.connOf
      && e.s in st.sessions && st'.sessions == st.sessions[e.s := st'.sessions[e.s]]
      && SessionOk(st.connOf, st'.sessions[e.s])
      && (forall t | TokenOk(st.connOf, st.sessions[e.s], t) :: TokenOk(st.connOf, st'.sessions[e.s], t))
  {
    assert SessionOk(st.connOf, st.sessions[e.s]);
    if e.BindWrite? {
      BindWriteKeepsSession(st.connOf, st.sessions[e.s]);
      forall t | TokenOk(st.connOf, st.sessions[e.s], t)
        ensures TokenOk(st.connOf, SessionStep(st, e).sessions[e.s], t) {
        BindWriteKeepsToken(st.connOf, st.sessions[e.s], t);
      }
    }
  }

  lemma TokensAfterSessionStep(st: State, e: Event)
    requires SessionEnabled(st, e)
    ensures !e.Enqueue? ==> SessionStep(st, e).tokens == st.tokens
    ensures !e.SyncAck? && !e.DirectNack? ==> SessionStep(st, e).executed == st.executed
  {
  }

  lemma EnqueuedTokenOk(st: State, e: Event)
    requires GenerationInv(st) && SessionEnabled(st, e) && e.Enqueue?
    ensures var st' := SessionStep(st, e);
      && e.id in st'.tokens && st'.tokens == st.tokens[e.id := st'.tokens[e.id]]
      && st'.tokens[e.id].item.session == e.s && TokenOk(st.connOf, st'.sessions[e.s], st'.tokens[e.id])
  {
    assert SessionOk(st.connOf, st.sessions[e.s]);
  }

  lemma GenerationKeptBySession(st: State, e: Event)
    requires GenerationInv(st) && SessionEnabled(st, e)
    ensures GenerationInv(SessionStep(st, e))
  {
    hide TokenOk;
    SessionStepShape(st, e);
    TokensAfterSessionStep(st, e);
    var st' := SessionStep(st, e);
    if e.Enqueue? {
      EnqueuedTokenOk(st, e);
    }
    forall id | id in st'.tokens
      ensures st'.tokens[id].item.session in st'.sessions
      ensures TokenOk(st'.connOf, st'.sessions[st'.tokens[id].item.session], st'.tokens[id])
    {
      if id in st.tokens {
        assert TokenOk(st.connOf, st.sessions[st.tokens[id].item.session], st.tokens[id]);
      }
    }
  }

  /** Reading one more field of the session, and deciding on what was read, keep a token honest. */
  lemma ReadKeepsToken(connOf: Channels, x: Session, t: Token)
    requires TokenOk(connOf, x, t) && t.stage.Settling?
    ensures TokenOk(connOf, x, t.(stage := t.stage.(read := ReadNext(x, t.stage.read))))
  {
  }

  lemma DecideKeepsToken(connOf: Channels, x: Session, t: Token, usable: bool)
    requires TokenOk(connOf, x, t) && t.stage.Settling? && t.stage.read.AllRead? && Guard(t, usable)
    ensures var r := t.stage.read;
      TokenOk(connOf, x, t.(stage := Scheduled(t.stage.verdict, r.conn.value, r.chan.value, r.generation)))
  {
  }

  lemma EarlyStageKeepsToken(connOf: Channels, x: Session, t: Token, stage: Stage)
    requires TokenOk(connOf, x, t)
    requires stage.Queued? || stage.Archiving? || (stage.Settling? && stage.read.NothingRead?)
    ensures TokenOk(connOf, x, t.(stage := stage))
  {
  }

  /** What a token step does to the parts the generations depend on. */
  lemma TokenStepFrame(st: State, e: Event)
    requires TokenEnabled(st, e)
    ensures var st' := TokenStep(st, e);
      && st'.connOf == st.connOf && st'.sessions == st.sessions
      && e.id in st.tokens && st'.tokens - {e.id} == st.tokens - {e.id}
      && (e.id in st'.tokens ==> st'.tokens[e.id].item == st.tokens[e.id].item)
      && (!e.RunCallback? ==> st'.executed == st.executed)
      && (e.RunCallback? || e.DropToken? ==> e.id !in st'.tokens)
  {
    hide Settle, Guard, CallbackStale, ReadNext;
    if e.RunCallback? {
      var t := st.tokens[e.id];
      SettleFrame(st.(tokens := st.tokens - {e.id}), OriginKey(t), t.item.msg, t.stage.verdict, t.stage.chan);
    }
  }

  lemma SteppedTokenOk(st: State, e: Event)
    requires GenerationInv(st) && TokenEnabled(st, e) && !e.RunCallback?
    requires !e.DropToken? && e.id in TokenStep(st, e).tokens
    ensures TokenOk(st.connOf, st.sessions[st.tokens[e.id].item.session], TokenStep(st, e).tokens[e.id])
  {
    hide TokenOk, ReadNext, Guard;
    var t := st.tokens[e.id];
    var x := st.sessions[t.item.session];
    if e.ReadField? {
      ReadKeepsToken(st.connOf, x, t);
    } else if e.Decide? {
      DecideKeepsToken(st.connOf, x, t, e.usable);
    } else {
      EarlyStageKeepsToken(st.connOf, x, t, TokenStep(st, e).tokens[e.id].stage);
    }
  }

  /** A callback that runs is recorded on the channel that delivered its item. */
  lemma CallbackHistory(st: State, id: TokenId)
    requires GenerationInv(st) && TokenEnabled(st, RunCallback(id))
    ensures var done := TokenStep(st, RunCallback(id)).executed;
      forall i | 0 <= i < |done| :: done[i].via == done[i].key.0
  {
    hide Settle, CallbackStale, TokenOk;
    var t := st.tokens[id];
    if !CallbackStale(st.sessions[t.item.session], t.stage.conn, t.stage.generation) {
      CallbackChannel(st, id);
      SettleFrame(st.(tokens := st.tokens - {id}), OriginKey(t), t.item.msg, t.stage.verdict, t.stage.chan);
    }
  }

  lemma GenerationKeptByToken(st: State, e: Event)
    requires GenerationInv(st) && TokenEnabled(st, e)
    ensures GenerationInv(TokenStep(st, e))
  {
    hide TokenStep, TokenOk;
    TokenStepFrame(st, e);
    var st' := TokenStep(st, e);
    if e.RunCallback? {
      CallbackHistory(st, e.id);
    } else if !e.DropToken? && e.id in st'.tokens {
      SteppedTokenOk(st, e);
    }
    forall id | id in st'.tokens
      ensures st'.tokens[id].item.session in st'.sessions
      ensures TokenOk(st'.connOf, st'.sessions[st'.tokens[id].item.session], st'.tokens[id])
    {
      if id != e.id {
        assert id in st'.tokens - {e.id};
        assert (st'.tokens - {e.id})[id] == (st.tokens - {e.id})[id];
        assert st'.tokens[id] == st.tokens[id];
      }
    }
  }

  lemma GenerationKept(st: State, e: Event)
    requires Inv(st) && Enabled(st, e)
    ensures GenerationInv(Step(st, e))
  {
    if BrokerEnabled(st, e) {
      GenerationKeptByBroker(st, e);
    } else if SessionEnabled(st, e) {
      GenerationKeptBySession(st, e);
    } else {
      GenerationKeptByToken(st, e);
    }
  }

  // ---- custody of deliveries ----------------------------------------------

  /** A step that forgets or keeps holders, and settles nothing, keeps custody. */
  lemma CustodyKeptByLettingGo(st: State, st': State)
    requires CustodyInv(st) && HistoryInv(st)
    requires forall h | Held(st', h).Some? :: Held(st', h) == Held(st, h)
    requires forall d | Owed(st, d) :: Owed(st', d)
    requires st'.executed == st.executed && forall ch :: Tag(st, ch) <= Tag(st', ch)
    ensures CustodyInv(st') && HistoryInv(st')
  {
  }

  /** A step that hands one delivery from `from` to `to` keeps custody. */
  lemma CustodyKeptByHandover(st: State, st': State, from: Holder, to: Holder)
    requires CustodyInv(st) && HistoryInv(st) && SameBroker(st, st') && st'.executed == st.executed
    requires Held(st', from).None? && Held(st', to) == Held(st, from)
    requires forall h | h != from && h != to :: Held(st', h) == Held(st, h)
    ensures CustodyInv(st') && HistoryInv(st')
  {
    forall h | Held(st', h).Some? ensures Owed(st', Held(st', h).value) {
      SameBrokerOwed(st, st', Held(st', h).value);
    }
  }

  lemma OthersOwedAfterSettle(st: State, d: Delivery, verdict: Verdict, other: Delivery)
    requires Owed(st, other) && other.key != d.key
    ensures Owed(Settle(st, d.key, d.msg, verdict, d.key.0), other)
  {
  }

  predicate SameHolders(st: State, st': State) {
    st'.sessions == st.sessions && st'.tokens == st.tokens
  }

  lemma SameHoldersHold(st: State, st': State, h: Holder)
    requires SameHolders(st, st')
    ensures Held(st', h) == Held(st, h)
  {
  }

  /** Once `h` has let go of its delivery, settling it keeps custody. */
  lemma CustodyKeptBySettling(st: State, without: State, h: Holder, verdict: Verdict)
    requires CustodyInv(st) && HistoryInv(st) && SameBroker(st, without) && without.executed == st.executed
    requires Held(st, h).Some? && Held(without, h).None?
    requires forall h' | h' != h :: Held(without, h') == Held(st, h')
    ensures var d := Held(st, h).value;
      CustodyInv(Settle(without, d.key, d.msg, verdict, d.key.0))
        && HistoryInv(Settle(without, d.key, d.msg, verdict, d.key.0))
  {
    hide Settle, Held, EffectOf, Owed;
    var d := Held(st, h).value;
    var st' := Settle(without, d.key, d.msg, verdict, d.key.0);
    SettleFrame(without, d.key, d.msg, verdict, d.key.0);
    OwedIsKnown(without, st, d);
    forall h' ensures Held(st', h') == Held(without, h') {
      SameHoldersHold(without, st', h');
    }
    forall h' | Held(st', h').Some? ensures h' != h && Owed(st', Held(st', h').value) {
      var other := Held(st', h').value;
      SameBrokerOwed(st, without, other);
      OthersOwedAfterSettle(without, d, verdict, other);
    }
    assert forall ch :: Tag(st', ch) == Tag(st, ch);
  }

  lemma SameBrokerOwed(st: State, st': State, d: Delivery)
    requires SameBroker(st, st') && Owed(st, d)
    ensures Owed(st', d)
  {
  }

  lemma OwedIsKnown(without: State, st: State, d: Delivery)
    requires SameBroker(st, without) && Owed(st, d)
    ensures EffectOf(without, d.key) != UnknownTag && d.key.1 < Tag(st, d.key.0)
  {
  }

  lemma BrokerStepOwes(st: State, e: Event)
    requires BrokerEnabled(st, e)
    ensures var st' := BrokerStep(st, e);
      && st'.sessions == st.sessions && st'.tokens == st.tokens && st'.executed == st.executed
      && st'.nextTag == st.nextTag
    ensures BrokerInv(st) ==> forall d | Owed(st, d) :: Owed(BrokerStep(st, e), d)
  {
  }

  lemma CustodyKeptByBroker(st: State, e: Event)
    requires Inv(st) && BrokerEnabled(st, e)
    ensures CustodyInv(BrokerStep(st, e)) && HistoryInv(BrokerStep(st, e))
  {
    hide CustodyInv, HistoryInv, ArchiveInv, GenerationInv, BrokerInv, BrokerStep, BrokerEnabled, Owed;
    BrokerStepOwes(st, e);
    CustodyKeptByLettingGo(st, BrokerStep(st, e));
  }

  /** A delivery joins those held; its key is new. */
  lemma CustodyKeptByGaining(st: State, st': State, to: Holder, d: Delivery)
    requires CustodyInv(st) && HistoryInv(st) && st'.executed == st.executed
    requires Held(st, to).None? && Held(st', to) == Some(d) && Owed(st', d)
    requires forall h | h != to :: Held(st', h) == Held(st, h)
    requires forall x | Owed(st, x) :: Owed(st', x)
    requires Tag(st, d.key.0) <= d.key.1 && forall ch :: Tag(st, ch) <= Tag(st', ch)
    ensures CustodyInv(st') && HistoryInv(st')
  {
    hide Held;
    forall h | h != to && Held(st', h).Some? ensures Held(st', h).value.key != d.key && Owed(st', Held(st', h).value) {
      assert Owed(st, Held(st, h).value);
    }
  }

  lemma CustodyKeptByDeliver(st: State, s: SessionId, m: Message)
    requires Inv(st) && SessionEnabled(st, Deliver(s, m))
    ensures CustodyInv(SessionStep(st, Deliver(s, m))) && HistoryInv(SessionStep(st, Deliver(s, m)))
  {
    hide CustodyInv, HistoryInv, ArchiveInv, GenerationInv, BrokerInv;
    var st' := SessionStep(st, Deliver(s, m));
    var ch := st.sessions[s].channel.value;
    var d := Delivery((ch, Tag(st, ch)), m);
    assert st'.tokens == st.tokens && st'.executed == st.executed;
    forall h | h != IoThread(s) ensures Held(st', h) == Held(st, h) {
    }
    CustodyKeptByGaining(st, st', IoThread(s), d);
  }

  lemma SameBrokerOwes(st: State, st': State)
    requires SameBroker(st, st')
    ensures forall d | Owed(st, d) :: Owed(st', d)
    ensures forall ch :: Tag(st, ch) <= Tag(st', ch)
  {
  }

  /** A session step that settles and delivers nothing. */
  lemma QuietSessionStep(st: State, e: Event)
    requires SessionEnabled(st, e) && !e.Deliver? && !e.SyncAck? && !e.DirectNack?
    ensures SameBroker(st, SessionStep(st, e)) && SessionStep(st, e).executed == st.executed
    ensures e.Enqueue? ==>
      && Held(SessionStep(st, e), IoThread(e.s)).None?
      && Held(SessionStep(st, e), Thread(e.id)) == Held(st, IoThread(e.s))
      && forall h | h != IoThread(e.s) && h != Thread(e.id) :: Held(SessionStep(st, e), h) == Held(st, h)
    ensures !e.Enqueue? ==> forall h | Held(SessionStep(st, e), h).Some? :: Held(SessionStep(st, e), h) == Held(st, h)
  {
    TokensAfterSessionStep(st, e);
  }

  lemma CustodyKeptBySession(st: State, e: Event)
    requires Inv(st) && SessionEnabled(st, e) && !e.Deliver? && !e.SyncAck? && !e.DirectNack?
    ensures CustodyInv(SessionStep(st, e)) && HistoryInv(SessionStep(st, e))
  {
    hide CustodyInv, HistoryInv, ArchiveInv, GenerationInv, BrokerInv, Held, SessionStep, SessionEnabled, Owed;
    var st' := SessionStep(st, e);
    QuietSessionStep(st, e);
    SameBrokerOwes(st, st');
    if e.Enqueue? {
      CustodyKeptByHandover(st, st', IoThread(e.s), Thread(e.id));
    } else {
      CustodyKeptByLettingGo(st, st');
    }
  }

  /** After a settlement made straight from `on_message`. */
  lemma CustodyKeptByDirect(st: State, e: Event)
    requires Inv(st) && SessionEnabled(st, e) && (e.SyncAck? || e.DirectNack?)
    ensures CustodyInv(SessionStep(st, e)) && HistoryInv(SessionStep(st, e))
  {
    hide CustodyInv, HistoryInv, ArchiveInv, GenerationInv, BrokerInv, Owed;
    var verdict := if e.SyncAck? then Ack else Nack;
    var without := WithSession(st, e.s, st.sessions[e.s].(io := Idle));
    var d := Held(st, IoThread(e.s)).value;
    forall h | h != IoThread(e.s) ensures Held(without, h) == Held(st, h) {
    }
    CustodyKeptBySettling(st, without, IoThread(e.s), verdict);
    assert SessionStep(st, e) == Settle(without, d.key, d.msg, verdict, d.key.0);
  }

  lemma CustodyKeptByCallback(st: State, id: TokenId)
    requires Inv(st) && TokenEnabled(st, RunCallback(id))
    requires !CallbackStale(st.sessions[st.tokens[id].item.session], st.tokens[id].stage.conn,
        st.tokens[id].stage.generation)
    ensures CustodyInv(TokenStep(st, RunCallback(id))) && HistoryInv(TokenStep(st, RunCallback(id)))
  {
    hide CustodyInv, HistoryInv, ArchiveInv, GenerationInv, BrokerInv, Owed, Settle, CallbackStale;
    var without := st.(tokens := st.tokens - {id});
    CallbackChannel(st, id);
    forall h | h != Thread(id) ensures Held(without, h) == Held(st, h) {
    }
    CustodyKeptBySettling(st, without, Thread(id), st.tokens[id].stage.verdict);
  }

  lemma TokenStepSettlesNothing(st: State, e: Event)
    requires TokenEnabled(st, e)
    requires e.RunCallback? ==>
      CallbackStale(st.sessions[st.tokens[e.id].item.session], st.tokens[e.id].stage.conn,
        st.tokens[e.id].stage.generation)
    ensures var st' := TokenStep(st, e);
      && SameBroker(st, st') && st'.executed == st.executed && st'.sessions == st.sessions
      && (forall id | id in st'.tokens :: id in st.tokens && st'.tokens[id].item == st.tokens[id].item)
  {
    hide Settle, Guard;
  }

  lemma CustodyKeptByToken(st: State, e: Event)
    requires Inv(st) && TokenEnabled(st, e)
    ensures CustodyInv(TokenStep(st, e)) && HistoryInv(TokenStep(st, e))
  {
    hide CustodyInv, HistoryInv, ArchiveInv, GenerationInv, BrokerInv, Owed, TokenStep, CallbackStale;
    var t := st.tokens[e.id];
    if e.RunCallback? && !CallbackStale(st.sessions[t.item.session], t.stage.conn, t.stage.generation) {
      CustodyKeptByCallback(st, e.id);
    } else {
      var st' := TokenStep(st, e);
      TokenStepSettlesNothing(st, e);
      SameBrokerOwes(st, st');
      forall h | Held(st', h).Some? ensures Held(st', h) == Held(st, h) {
      }
      CustodyKeptByLettingGo(st, st');
    }
  }

  lemma CustodyKept(st: State, e: Event)
    requires Inv(st) && Enabled(st, e)
    ensures CustodyInv(Step(st, e)) && HistoryInv(Step(st, e))
  {
    hide BrokerInv, CustodyInv, GenerationInv, HistoryInv, ArchiveInv, BrokerStep, SessionStep, TokenStep;
    if BrokerEnabled(st, e) {
      CustodyKeptByBroker(st, e);
    } else if SessionEnabled(st, e) {
      if e.Deliver? {
        CustodyKeptByDeliver(st, e.s, e.m);
      } else if e.SyncAck? || e.DirectNack? {
        CustodyKeptByDirect(st, e);
      } else {
        CustodyKeptBySession(st, e);
      }
    } else {
      CustodyKeptByToken(st, e);
    }
  }

  /** Settling keeps the archive's promises as long as only an archived message is acked. */
  lemma ArchiveKeptBySettle(st: State, key: Key, msg: Message, verdict: Verdict)
    requires ArchiveInv(st) && BrokerInv(st) && Owed(st, Delivery(key, msg)) && (verdict == Ack ==> msg in st.archive)
    ensures ArchiveInv(Settle(st, key, msg, verdict, key.0))
  {
    hide Settle, BrokerInv, Owed, EffectOf;
    SettleFrame(st, key, msg, verdict, key.0);
    SettleKeepsBroker(st, key, msg, verdict);
  }

  lemma ArchiveKeptBySession(st: State, e: Event)
    requires Inv(st) && SessionEnabled(st, e)
    ensures ArchiveInv(SessionStep(st, e))
  {
    hide CustodyInv, HistoryInv, GenerationInv, BrokerInv, Owed, Settle, OnLiveConnection;
    TokensAfterSessionStep(st, e);
    if e.SyncAck? || e.DirectNack? {
      var d := Held(st, IoThread(e.s)).value;
      var verdict := if e.SyncAck? then Ack else Nack;
      HeldIsOwed(st, IoThread(e.s));
      SettleFrame(st, d.key, d.msg, verdict, d.key.0);
      ArchiveKeptBySettle(st, d.key, d.msg, verdict);
      ArchiveKeptByIdling(Settle(st, d.key, d.msg, verdict, d.key.0), e.s);
    }
  }

  lemma ArchiveKeptByIdling(st: State, s: SessionId)
    requires ArchiveInv(st) && s in st.sessions
    ensures ArchiveInv(WithSession(st, s, st.sessions[s].(io := Idle)))
  {
  }

  lemma ArchiveKeptByToken(st: State, e: Event)
    requires Inv(st) && TokenEnabled(st, e)
    ensures ArchiveInv(TokenStep(st, e))
  {
    hide CustodyInv, HistoryInv, GenerationInv, BrokerInv, Owed, Settle, Guard;
    if e.RunCallback? && !CallbackStale(st.sessions[st.tokens[e.id].item.session], st.tokens[e.id].stage.conn,
      st.tokens[e.id].stage.generation) {
      var t := st.tokens[e.id];
      var without := st.(tokens := st.tokens - {e.id});
      CallbackChannel(st, e.id);
      HeldIsOwed(st, Thread(e.id));
      SameBrokerOwed(st, without, Delivery(OriginKey(t), t.item.msg));
      BrokerKeptBySame(st, without);
      ArchiveKeptBySettle(without, OriginKey(t), t.item.msg, t.stage.verdict);
    }
  }

  lemma ArchiveKeptByBroker(st: State, e: Event)
    requires ArchiveInv(st) && BrokerEnabled(st, e)
    ensures ArchiveInv(BrokerStep(st, e))
  {
  }

  // ---- the theorems -------------------------------------------------------

  lemma StepKeepsInv(st: State, e: Event)
    requires Inv(st) && Enabled(st, e)
    ensures Inv(Step(st, e))
  {
    hide BrokerInv, CustodyInv, GenerationInv, HistoryInv, ArchiveInv, BrokerStep, SessionStep, TokenStep;
    BrokerKept(st, e);
    GenerationKept(st, e);
    CustodyKept(st, e);
    if BrokerEnabled(st, e) {
      ArchiveKeptByBroker(st, e);
    } else if SessionEnabled(st, e) {
      ArchiveKeptBySession(st, e);
    } else {
      ArchiveKeptByToken(st, e);
    }
  }

  lemma {:induction false} RunKeepsInv(states: seq<State>, events: seq<Event>, n: nat)
    requires IsRun(states, events) && n < |states|
    ensures Inv(states[n])
  {
    if n > 0 {
      hide Inv, Step, Enabled, Init;
      RunKeepsInv(states, events, n - 1);
      StepKeepsInv(states[n - 1], events[n - 1]);
    }
  }

  /** No message is lost: it is ready, unacknowledged on a live connection, or durable in the archive. */
  lemma NoMessageLost(states: seq<State>, events: seq<Event>, n: nat, m: Message)
    requires IsRun(states, events) && n < |states| && m in states[n].published
    ensures var st := states[n];
      || m in st.ready
      || (exists k :: k in st.unacked && st.unacked[k] == m && OnLiveConnection(st, k.0))
      || m in st.archive
  {
    hide Inv, IsRun;
    RunKeepsInv(states, events, n);
    WhereMessagesAre(states[n]);
  }

  lemma WhereMessagesAre(st: State)
    requires Inv(st)
    ensures st.removed <= st.archive
    ensures forall m | m in st.published ::
      || m in st.ready
      || (exists k :: k in st.unacked && st.unacked[k] == m && OnLiveConnection(st, k.0))
      || m in st.archive
  {
    forall m | m in st.published && m in st.unacked.Values
      ensures exists k :: k in st.unacked && st.unacked[k] == m && OnLiveConnection(st, k.0)
    {
      var k :| k in st.unacked && st.unacked[k] == m;
      assert OnLiveConnection(st, k.0);
    }
  }

  /** Every ack or nack that a run performs is performed on the channel that delivered its tag. */
  lemma GenerationSafety(states: seq<State>, events: seq<Event>, n: nat)
    requires IsRun(states, events) && n < |states|
    ensures forall i | 0 <= i < |states[n].executed| ::
      states[n].executed[i].via == states[n].executed[i].key.0 && states[n].executed[i].effect != UnknownTag
  {
    RunKeepsInv(states, events, n);
  }

  /** Each delivery is settled at most once, and an ack only for a message archived before the ack ran. */
  lemma SettledOnceAfterArchive(states: seq<State>, events: seq<Event>, n: nat)
    requires IsRun(states, events) && n < |states|
    ensures forall i, j | 0 <= i < j < |states[n].executed| :: states[n].executed[i].key != states[n].executed[j].key
    ensures n > 0 ==> forall i | |states[n - 1].executed| <= i < |states[n].executed| ::
      states[n].executed[i].verdict == Ack ==> states[n].executed[i].msg in states[n - 1].archive
    ensures states[n].removed <= states[n].archive
  {
    RunKeepsInv(states, events, n);
    if n > 0 {
      RunKeepsInv(states, events, n - 1);
      var st, e := states[n - 1], events[n - 1];
      if |states[n].executed| > |st.executed| {
        assert states[n].archive == st.archive by { OnlySettlingGrowsHistory(st, e); }
      }
    }
  }

  lemma OnlySettlingGrowsHistory(st: State, e: Event)
    requires Enabled(st, e)
    ensures |Step(st, e).executed| > |st.executed| ==> Step(st, e).archive == st.archive
  {
    hide Settle, CallbackStale, Guard, OnLiveConnection, EffectOf, WriteNext, ReadNext, Tag, Requeued;
    if e.SyncAck? || e.DirectNack? {
      var x := st.sessions[e.s];
      SettleFrame(st, (x.io.on, x.io.tag), x.io.msg, if e.SyncAck? then Ack else Nack, x.io.on);
    } else if e.RunCallback? {
      var t := st.tokens[e.id];
      SettleFrame(st.(tokens := st.tokens - {e.id}), OriginKey(t), t.item.msg, t.stage.verdict, t.stage.chan);
    }
  }
}
