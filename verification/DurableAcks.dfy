/**
 The acknowledge protocol on top of the file archive. Where the protocol archives a message, a payload
 is appended to the archive, and the message counts as archived exactly when that append returned.
 */
module DurableAcks {
  import opened Wrappers
  import opened EpochDirectory
  import opened ArchiveWriter
  import P = AckProtocol
  import S = AckSafety

  /** One step: an event of the protocol, and how the system answers the append it may contain. */
  datatype Stimulus = Stimulus(event: P.Event, world: World)

  /** What an event turns into once the append it contains, if any, has returned or raised; `None` for nothing. */
  function Resolved(e: P.Event, returned: bool): Option<P.Event> {
    match e
    case ArchiveSucceeds(id) => Some(if returned then e else P.ArchiveFails(id))
    case ArchiveFails(id) => Some(if returned then P.ArchiveSucceeds(id) else e)
    case SyncArchive(_) => if returned then Some(e) else None
    case _ => Some(e)
  }

  predicate Archives(e: P.Event) {
    e.ArchiveSucceeds? || e.ArchiveFails? || e.SyncArchive?
  }

  /** The message whose body an archive event appends. */
  function Subject(st: P.State, e: P.Event): P.Message
    requires P.Enabled(st, e) && Archives(e)
  {
    if e.SyncArchive? then st.sessions[e.s].io.msg else st.tokens[e.id].item.msg
  }

  lemma ResolvedIsEnabled(st: P.State, e: P.Event, returned: bool)
    requires P.Enabled(st, e)
    ensures Resolved(e, returned).Some? ==> P.Enabled(st, Resolved(e, returned).value)
  {
  }

  /** Only an append that returned puts a message into the archive, and only its own. */
  lemma OnlyTheSubjectIsArchived(st: P.State, e: P.Event, returned: bool)
    requires P.Enabled(st, e) && Resolved(e, returned).Some? && P.Enabled(st, Resolved(e, returned).value)
    ensures P.Step(st, Resolved(e, returned).value).archive ==
      st.archive + if Archives(e) && returned then {Subject(st, e)} else {}
  {
    hide P.BrokerStep, P.SessionStep, P.TokenStep, P.Settle;
    var e' := Resolved(e, returned).value;
    if P.BrokerEnabled(st, e') {
      BrokerArchivesNothing(st, e');
    } else if P.SessionEnabled(st, e') {
      SessionArchives(st, e');
    } else {
      TokenArchives(st, e');
    }
  }

  lemma BrokerArchivesNothing(st: P.State, e: P.Event)
    requires P.BrokerEnabled(st, e)
    ensures P.BrokerStep(st, e).archive == st.archive
  {
    hide P.Requeued, P.RequeuedFrom, P.OfConnection;
  }

  lemma SessionArchives(st: P.State, e: P.Event)
    requires P.SessionEnabled(st, e)
    ensures P.SessionStep(st, e).archive == st.archive + if e.SyncArchive? then {st.sessions[e.s].io.msg} else {}
  {
    hide P.Settle, P.WriteNext, P.Tag;
    if e.SyncAck? || e.DirectNack? {
      SettleArchivesNothing(st, (st.sessions[e.s].io.on, st.sessions[e.s].io.tag), st.sessions[e.s].io.msg,
                            if e.SyncAck? then P.Ack else P.Nack, st.sessions[e.s].io.on);
    }
  }

  lemma TokenArchives(st: P.State, e: P.Event)
    requires P.TokenEnabled(st, e)
    ensures P.TokenStep(st, e).archive == st.archive + if e.ArchiveSucceeds? then {st.tokens[e.id].item.msg} else {}
  {
    hide P.Settle, P.CallbackStale, P.Guard, P.ReadNext;
    if e.RunCallback? {
      var t := st.tokens[e.id];
      SettleArchivesNothing(st.(tokens := st.tokens - {e.id}), P.OriginKey(t), t.item.msg, t.stage.verdict,
                            t.stage.chan);
    }
  }

  lemma SettleArchivesNothing(st: P.State, key: P.Key, msg: P.Message, verdict: P.Verdict, via: P.Channel)
    ensures P.Settle(st, key, msg, verdict, via).archive == st.archive
  {
  }

  lemma SeenIsNotLost(archive: Archive, dirs: map<string, Directory>, world: World, payload: seq<Byte>)
    requires !world.existsRaises
    ensures !archive.LosesBy(dirs, world, payload)
  {
  }

  class Daemon {
    const archive: Archive
    const body: P.Message -> seq<Byte>

    var st: P.State
    /** Where the receipt of each archived message is. */
    ghost var place: map<P.Message, nat>

    ghost predicate Valid()
      reads this, archive
    {
      && archive.Valid() && S.Inv(st)
      && forall m | m in st.archive :: m in place && FiledAt(m, place[m])
    }

    ghost predicate FiledAt(m: P.Message, k: nat)
      reads archive
    {
      && k < |archive.receipts|
      && archive.receipts[k].payload == body(m) && archive.hostOf(body(m)) == Some(archive.receipts[k].host)
    }

    /** The payload of the message can be read back from its host's archive. */
    ghost predicate Stored(m: P.Message)
      reads this, archive
    {
      && m in place && FiledAt(m, place[m])
      && ReceiptHolds(archive.dirs, archive.receipts[place[m]])
    }

    /** It was archived, and a later `$` append has truncated it. */
    ghost predicate Truncated(m: P.Message)
      reads this, archive
    {
      m in place && FiledAt(m, place[m]) && place[m] in archive.lost
    }

    constructor (archive: Archive, body: P.Message -> seq<Byte>, st: P.State)
      requires archive.Valid() && P.Init(st)
      ensures Valid() && this.archive == archive && this.body == body && this.st == st
    {
      this.archive, this.body, this.st := archive, body, st;
      place := map[];
      S.RunKeepsInv([st], [], 0);
    }

    /** Append the body of `m` on the thread its host is affine to. */
    method Append(m: P.Message, world: World) returns (ok: bool)
      requires Valid()
      modifies this`place, archive
      ensures archive.Valid() && old(archive.receipts) <= archive.receipts && old(archive.lost) <= archive.lost
      ensures forall n | n in st.archive :: n in place && FiledAt(n, place[n])
      ensures ok ==> m in place && FiledAt(m, place[m])
      ensures |archive.receipts| == |old(archive.receipts)| + if ok then 1 else 0
      ensures !world.existsRaises ==> archive.lost == old(archive.lost)
    {
      hide S.Inv, Consistent, OnlyHostEvolved, Exact, Struck, Loses, Unreadable, Truncates, RecordDescribes, NoDrift,
        SizeCarried, InCurrent, CurrentLength, HoldOf, Filed, Evolves;
      var payload := body(m);
      var w := if archive.hostOf(payload).Some? then archive.workerOf(archive.hostOf(payload).value) else 0;
      ghost var before, h := archive.receipts, archive.HoldFor(archive.dirs, archive.sticky, world, w, payload);
      if !world.existsRaises {
        SeenIsNotLost(archive, archive.dirs, world, payload);
      }
      ghost var segment;
      var r;
      r, segment := archive.AppendMonitorPayload(w, payload, world);
      FiledBehind(r, h, before, archive.receipts, payload);
      ok := r.Returned?;
      if ok {
        place := place[m := |archive.receipts| - 1];
      }
    }

    /** One event, if it is enabled. An archive event turns out as its append does. */
    method Advance(e: P.Event, world: World)
      requires Valid()
      modifies this`st, this`place, archive
      ensures Valid() && old(archive.receipts) <= archive.receipts && old(archive.lost) <= archive.lost
      ensures !world.existsRaises ==> archive.lost == old(archive.lost)
      ensures var returned := |archive.receipts| > |old(archive.receipts)|;
        && (returned ==> P.Enabled(old(st), e) && Archives(e))
        && st == if P.Enabled(old(st), e) && Resolved(e, returned).Some?
                    && P.Enabled(old(st), Resolved(e, returned).value)
                 then P.Step(old(st), Resolved(e, returned).value) else old(st)
    {
      hide S.Inv, P.Enabled, P.Step;
      if !P.Enabled(st, e) {
        return;
      }
      var returned := false;
      if Archives(e) {
        returned := Append(Subject(st, e), world);
      }
      if Resolved(e, returned).Some? {
        ResolvedIsEnabled(st, e, returned);
        OnlyTheSubjectIsArchived(st, e, returned);
        Move(Resolved(e, returned).value);
      }
    }

    method Move(e: P.Event)
      requires archive.Valid() && S.Inv(st) && P.Enabled(st, e)
      requires forall m | m in P.Step(st, e).archive :: m in place && FiledAt(m, place[m])
      modifies this`st
      ensures Valid() && st == P.Step(old(st), e)
    {
      S.StepKeepsInv(st, e);
      st := P.Step(st, e);
    }

    /**
     Any events in any order, with the system answering in any way. No message is lost: it is ready, or
     unacknowledged on a live connection, or its payload can be read back from its host's archive, or a
     `$` append has truncated it. The last cannot happen while `exists` answers. And only messages of
     the last two kinds have left the broker.
     */
    method Run(stimuli: seq<Stimulus>)
      requires Valid()
      modifies this`st, this`place, archive
      ensures Valid()
      ensures forall m | m in st.published ::
        || m in st.ready
        || (exists k :: k in st.unacked && st.unacked[k] == m && P.OnLiveConnection(st, k.0))
        || Stored(m) || Truncated(m)
      ensures forall m | m in st.removed :: Stored(m) || Truncated(m)
      ensures (forall x | x in stimuli :: !x.world.existsRaises) ==> archive.lost == old(archive.lost)
    {
      hide S.Inv, P.Enabled, P.Step;
      for n := 0 to |stimuli|
        invariant Valid()
        invariant (forall x | x in stimuli :: !x.world.existsRaises) ==> archive.lost == old(archive.lost)
      {
        assert stimuli[n] in stimuli;
        Advance(stimuli[n].event, stimuli[n].world);
      }
      Safe();
    }

    lemma Safe()
      requires Valid()
      ensures forall m | m in st.published ::
        || m in st.ready
        || (exists k :: k in st.unacked && st.unacked[k] == m && P.OnLiveConnection(st, k.0))
        || Stored(m) || Truncated(m)
      ensures forall m | m in st.removed :: Stored(m) || Truncated(m)
    {
      archive.StandingReceiptsHold();
      S.WhereMessagesAre(st);
    }
  }
}
