/**
 The consume/archive/acknowledge protocol of listend as a state machine.

 The broker keeps ready messages and, per channel, unacknowledged deliveries. Each consume session
 belongs to one I/O thread, which binds connections, receives deliveries and runs deferred callbacks.
 Archive threads take queued items, append them durably and then read the session's four fields one
 at a time before scheduling an ack or nack back onto the I/O thread. Every assignment of `bind` and
 every read of an archive thread is a step of its own, so any interleaving of the two is a run.
 */
module AckProtocol {
  import opened Wrappers

  type Message = nat
  type Connection = nat
  type Channel = nat
  type SessionId = nat
  type TokenId = nat
  type Key = (Channel, nat)   // a delivery: channel and delivery tag

  datatype Verdict = Ack | Nack

  /** What the I/O thread of a session is doing. */
  datatype Io =
    | Idle
    | Binding(conn: Option<Connection>, chan: Option<Channel>, written: nat)
    | OnMessage(tag: nat, msg: Message, on: Channel, archived: bool)

  datatype Session = Session(
    connection: Option<Connection>,
    channel: Option<Channel>,
    generation: nat,
    reconnectRequested: bool,
    io: Io)

  /** A work item. `origin` names the delivering channel for the specification; no guard reads it. */
  datatype Item = Item(tag: nat, msg: Message, session: SessionId, ackGeneration: nat, origin: Channel)

  /** The session fields an archive thread has read so far, in the order it reads them. */
  datatype Snapshot =
    | NothingRead
    | ConnectionRead(conn: Option<Connection>)
    | ChannelRead(conn: Option<Connection>, chan: Option<Channel>)
    | GenerationRead(conn: Option<Connection>, chan: Option<Channel>, generation: nat)
    | AllRead(conn: Option<Connection>, chan: Option<Channel>, generation: nat, reconnect: bool)

  datatype Stage =
    | Queued
    | Archiving
    | Settling(verdict: Verdict, read: Snapshot)
    | Scheduled(verdict: Verdict, conn: Connection, chan: Channel, generation: nat)

  datatype Token = Token(item: Item, stage: Stage)

  datatype Effect = Settled | ChannelGone | UnknownTag

  /** One ack or nack that a channel was asked to perform. */
  datatype Executed = Executed(key: Key, msg: Message, verdict: Verdict, via: Channel, effect: Effect)

  datatype State = State(
    published: set<Message>,
    ready: set<Message>,
    unacked: map<Key, Message>,
    removed: set<Message>,
    everOpened: set<Connection>,
    live: set<Connection>,
    closedChannels: set<Channel>,
    connOf: map<Channel, Connection>,
    nextTag: map<Channel, nat>,
    sessions: map<SessionId, Session>,
    tokens: map<TokenId, Token>,
    archive: set<Message>,
    executed: seq<Executed>)

  datatype Event =
    | Publish(m: Message)
    | OpenConnection(c: Connection)
    | OpenChannel(c: Connection, ch: Channel)
    | CloseChannel(ch: Channel)
    | CloseConnection(c: Connection)
    | BeginBind(s: SessionId, bc: Option<Connection>, bch: Option<Channel>)
    | BindWrite(s: SessionId)
    | SetReconnect(s: SessionId, flag: bool)
    | Deliver(s: SessionId, m: Message)
    | Enqueue(s: SessionId, id: TokenId)
    | SyncArchive(s: SessionId)
    | SyncAck(s: SessionId)
    | DirectNack(s: SessionId)
    | AbandonDelivery(s: SessionId)
    | Take(id: TokenId)
    | ArchiveSucceeds(id: TokenId)
    | ArchiveFails(id: TokenId)
    | ReadField(id: TokenId)
    | Decide(id: TokenId, usable: bool)
    | RunCallback(id: TokenId)
    | DropToken(id: TokenId)

  predicate Init(st: State) {
    && st.published == st.ready == {} && st.removed == {} && st.archive == {}
    && st.unacked == map[] && st.connOf == map[] && st.nextTag == map[] && st.tokens == map[]
    && st.everOpened == st.live == {} && st.closedChannels == {} && st.executed == []
    && forall s | s in st.sessions :: st.sessions[s] == Session(None, None, 0, false, Idle)
  }

  function OriginKey(t: Token): Key {
    (t.item.origin, t.item.tag)
  }

  function Tag(st: State, ch: Channel): nat {
    if ch in st.nextTag then st.nextTag[ch] else 1
  }

  /** The channel is open, on a connection that is. */
  predicate OnLiveConnection(st: State, ch: Channel) {
    ch in st.connOf && st.connOf[ch] in st.live && ch !in st.closedChannels
  }

  // ---- session side -------------------------------------------------------

  /** Perform the next of the four assignments of `bind`; the fourth one completes it. */
  function WriteNext(x: Session): Session
    requires x.io.Binding?
  {
    var Binding(c, ch, n) := x.io;
    match n
    case 0 => x.(connection := c, io := Binding(c, ch, 1))
    case 1 => x.(channel := ch, io := Binding(c, ch, 2))
    case 2 => x.(generation := x.generation + 1, io := Binding(c, ch, 3))
    case _ => x.(reconnectRequested := false, io := Idle)
  }

  /** Read the next session field, in the order of `_consume_amqp_for_threadsafe_op`. */
  function ReadNext(x: Session, r: Snapshot): Snapshot {
    match r
    case NothingRead => ConnectionRead(x.connection)
    case ConnectionRead(c) => ChannelRead(c, x.channel)
    case ChannelRead(c, ch) => GenerationRead(c, ch, x.generation)
    case GenerationRead(c, ch, g) => AllRead(c, ch, g, x.reconnectRequested)
    case AllRead(_, _, _, _) => r
  }

  /** A deferred callback no-ops when its session has been rebound since it was scheduled. */
  predicate CallbackStale(x: Session, conn: Connection, generation: nat) {
    x.generation != generation || x.reconnectRequested || x.connection != Some(conn)
  }

  // ---- broker side --------------------------------------------------------

  function EffectOf(st: State, key: Key): Effect {
    if !OnLiveConnection(st, key.0) then ChannelGone
    else if key in st.unacked then Settled
    else UnknownTag
  }

  /** Ask channel `via` to ack or nack the tag of `key`. */
  function Settle(st: State, key: Key, msg: Message, verdict: Verdict, via: Channel): State {
    var asked := (via, key.1);
    var effect := EffectOf(st, asked);
    var st1 := st.(executed := st.executed + [Executed(key, msg, verdict, via, effect)]);
    if effect != Settled then st1
    else
      var m := st.unacked[asked];
      st1.(unacked := st.unacked - {asked},
           ready := if verdict == Nack then st.ready + {m} else st.ready,
           removed := if verdict == Ack then st.removed + {m} else st.removed)
  }

  function WithSession(st: State, s: SessionId, x: Session): State {
    st.(sessions := st.sessions[s := x])
  }

  function WithStage(st: State, id: TokenId, stage: Stage): State
    requires id in st.tokens
  {
    st.(tokens := st.tokens[id := st.tokens[id].(stage := stage)])
  }

  predicate OfConnection(st: State, k: Key, c: Connection) {
    k.0 in st.connOf && st.connOf[k.0] == c
  }

  /** What the broker puts back when connection `c` goes. */
  function Requeued(st: State, c: Connection): set<Message> {
    set k | k in st.unacked && OfConnection(st, k, c) :: st.unacked[k]
  }

  /** What the broker puts back when only channel `ch` goes. */
  function RequeuedFrom(st: State, ch: Channel): set<Message> {
    set k | k in st.unacked && k.0 == ch :: st.unacked[k]
  }

  predicate Guard(t: Token, usable: bool)
    requires t.stage.Settling? && t.stage.read.AllRead?
  {
    var AllRead(c, ch, g, reconnect) := t.stage.read;
    && !(t.item.ackGeneration != 0 && g != t.item.ackGeneration)
    && c.Some? && ch.Some?
    && !reconnect && usable
  }

  // ---- steps --------------------------------------------------------------

  predicate SessionEnabled(st: State, e: Event) {
    match e
    case BeginBind(s, c, ch) =>
      && s in st.sessions && st.sessions[s].io.Idle?
      && c.Some? == ch.Some?
      && (ch.Some? ==> ch.value in st.connOf && c == Some(st.connOf[ch.value]))
    case BindWrite(s) => s in st.sessions && st.sessions[s].io.Binding?
    case SetReconnect(s, _) => s in st.sessions
    case Deliver(s, m) =>
      && s in st.sessions && st.sessions[s].io.Idle?
      && st.sessions[s].channel.Some? && OnLiveConnection(st, st.sessions[s].channel.value)
      && m in st.ready
    case Enqueue(s, id) => s in st.sessions && st.sessions[s].io.OnMessage? && !st.sessions[s].io.archived
      && id !in st.tokens
    case SyncArchive(s) => s in st.sessions && st.sessions[s].io.OnMessage?
    case SyncAck(s) =>
      s in st.sessions && st.sessions[s].io.OnMessage? && st.sessions[s].io.archived
        && OnLiveConnection(st, st.sessions[s].io.on)
    case DirectNack(s) => s in st.sessions && st.sessions[s].io.OnMessage? && OnLiveConnection(st, st.sessions[s].io.on)
    case AbandonDelivery(s) => s in st.sessions && st.sessions[s].io.OnMessage?
    case _ => false
  }

  predicate TokenEnabled(st: State, e: Event) {
    match e
    case Take(id) => id in st.tokens && st.tokens[id].stage == Queued
    case ArchiveSucceeds(id) => id in st.tokens && st.tokens[id].stage == Archiving
    case ArchiveFails(id) => id in st.tokens && st.tokens[id].stage == Archiving
    case ReadField(id) =>
      id in st.tokens && st.tokens[id].stage.Settling? && !st.tokens[id].stage.read.AllRead?
        && st.tokens[id].item.session in st.sessions
    case Decide(id, _) => id in st.tokens && st.tokens[id].stage.Settling? && st.tokens[id].stage.read.AllRead?
    case RunCallback(id) =>
      && id in st.tokens && st.tokens[id].stage.Scheduled? && st.tokens[id].item.session in st.sessions
      && st.sessions[st.tokens[id].item.session].io.Idle?
    case DropToken(id) => id in st.tokens
    case _ => false
  }

  predicate BrokerEnabled(st: State, e: Event) {
    match e
    case Publish(m) => m !in st.published
    case OpenConnection(c) => c !in st.everOpened
    case OpenChannel(c, ch) => c in st.everOpened && ch !in st.connOf
    case CloseChannel(ch) => OnLiveConnection(st, ch)
    case CloseConnection(c) => c in st.live
    case _ => false
  }

  predicate Enabled(st: State, e: Event) {
    BrokerEnabled(st, e) || SessionEnabled(st, e) || TokenEnabled(st, e)
  }

  function BrokerStep(st: State, e: Event): State
    requires BrokerEnabled(st, e)
  {
    match e
    case Publish(m) => st.(published := st.published + {m}, ready := st.ready + {m})
    case OpenConnection(c) => st.(everOpened := st.everOpened + {c}, live := st.live + {c})
    case OpenChannel(c, ch) => st.(connOf := st.connOf[ch := c])
    case CloseChannel(ch) =>
      st.(closedChannels := st.closedChannels + {ch},
          ready := st.ready + RequeuedFrom(st, ch),
          unacked := map k | k in st.unacked && k.0 != ch :: st.unacked[k])
    case CloseConnection(c) =>
      st.(live := st.live - {c},
          ready := st.ready + Requeued(st, c),
          unacked := map k | k in st.unacked && !OfConnection(st, k, c) :: st.unacked[k])
  }

  function SessionStep(st: State, e: Event): State
    requires SessionEnabled(st, e)
  {
    var x := st.sessions[e.s];
    match e
    case BeginBind(s, c, ch) => WithSession(st, s, x.(io := Binding(c, ch, 0)))
    case BindWrite(s) => WithSession(st, s, WriteNext(x))
    case SetReconnect(s, flag) => WithSession(st, s, x.(reconnectRequested := flag))
    case Deliver(s, m) =>
      var ch := x.channel.value;
      var tag := Tag(st, ch);
      WithSession(st.(ready := st.ready - {m}, unacked := st.unacked[(ch, tag) := m],
                  nextTag := st.nextTag[ch := tag + 1]), s, x.(io := OnMessage(tag, m, ch, false)))
    case Enqueue(s, id) =>
      WithSession(st.(tokens := st.tokens[id := Token(Item(x.io.tag, x.io.msg, s, x.generation, x.io.on), Queued)]),
                  s, x.(io := Idle))
    case SyncArchive(s) => WithSession(st.(archive := st.archive + {x.io.msg}), s, x.(io := x.io.(archived := true)))
    case SyncAck(s) => WithSession(Settle(st, (x.io.on, x.io.tag), x.io.msg, Ack, x.io.on), s, x.(io := Idle))
    case DirectNack(s) => WithSession(Settle(st, (x.io.on, x.io.tag), x.io.msg, Nack, x.io.on), s, x.(io := Idle))
    case AbandonDelivery(s) => WithSession(st, s, x.(io := Idle))
  }

  function TokenStep(st: State, e: Event): State
    requires TokenEnabled(st, e)
  {
    var t := st.tokens[e.id];
    var without := st.(tokens := st.tokens - {e.id});
    match e
    case Take(id) => WithStage(st, id, Archiving)
    case ArchiveSucceeds(id) => WithStage(st.(archive := st.archive + {t.item.msg}), id, Settling(Ack, NothingRead))
    case ArchiveFails(id) => WithStage(st, id, Settling(Nack, NothingRead))
    case ReadField(id) => WithStage(st, id, t.stage.(read := ReadNext(st.sessions[t.item.session], t.stage.read)))
    case Decide(id, usable) =>
      if Guard(t, usable) then
        WithStage(st, id, Scheduled(t.stage.verdict, t.stage.read.conn.value, t.stage.read.chan.value,
          t.stage.read.generation))
      else without
    case RunCallback(id) =>
      if CallbackStale(st.sessions[t.item.session], t.stage.conn, t.stage.generation) then without
      else Settle(without, OriginKey(t), t.item.msg, t.stage.verdict, t.stage.chan)
    case DropToken(id) => without
  }

  function Step(st: State, e: Event): State
    requires Enabled(st, e)
  {
    if BrokerEnabled(st, e) then BrokerStep(st, e)
    else if SessionEnabled(st, e) then SessionStep(st, e)
    else TokenStep(st, e)
  }

  /** A run: the states visited, starting initially, each the step of the one before. */
  ghost predicate IsRun(states: seq<State>, events: seq<Event>) {
    && |states| == |events| + 1
    && Init(states[0])
    && forall i | 0 <= i < |events| :: Enabled(states[i], events[i]) && states[i + 1] == Step(states[i], events[i])
  }
}
