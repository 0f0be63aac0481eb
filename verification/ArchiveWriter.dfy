/**
 The archive side of listend: rotation over hard links, the digit-link cache and the kept writer.

 Every system call may raise; a `World` says which ones do. `os.path.exists` swallows what its `stat`
 raises and answers False.
 Archive threads are numbered; `sticky` is the thread-local kept writer of each, and `workerOf` the
 host-affine dispatch.
 */
module ArchiveWriter {
  import opened Wrappers
  import opened DigitNames
  import opened EpochDirectory

  type WorkerId = nat

  /** `$`, the first byte of a schema payload. */
  const DOLLAR: Byte := 36

  /** A kept O_APPEND descriptor on a host's `current` and the size it is believed to have. */
  datatype Sticky = Sticky(host: string, inode: Inode, size: nat)

  datatype RotationRecord = RotationRecord(
    fqdn: string, closedPath: string, rotatedAt: int, closedEpoch: nat, closedBytes: nat, newEpoch: int)

  datatype AppendResult = AppendResult(host: string, offset: nat, length: nat, rotation: Option<RotationRecord>)

  /**
   What the operating system answers during one append: whether the kept writer has gone stale, which
   calls raise, how many bytes of a write that raises land all the same, the wall clock, and the first
   sample second of the closed and of the new file, if any. `existsRaises` is the `stat` within the
   `os.path.exists` of `current`. The last three sets are the calls that raise while a rotation looks for
   a digit link of `current` and makes one, looks again and unlinks, and names the new file.
   */
  datatype World = World(
    stale: bool, cannotMakeDirs: bool, cannotOpen: bool, cannotLock: bool, cannotStat: bool,
    flockTimesOut: bool, existsRaises: bool, writeRaises: bool, landed: nat,
    wallClock: int, closedFirst: Option<int>, newFirst: Option<int>,
    closing: set<Call>, checking: set<Call>, naming: set<Call>)

  /** What a write of the payload puts into the file. */
  function Written(world: World, payload: seq<Byte>): seq<Byte> {
    if world.writeRaises && world.landed < |payload| then payload[..world.landed] else payload
  }

  /** All of it, or after a raise as much of its beginning as has landed. */
  lemma WrittenIff(world: World, payload: seq<Byte>)
    ensures Written(world, payload) <= payload
    ensures |Written(world, payload)| ==
      if !world.writeRaises || |payload| <= world.landed then |payload| else world.landed
  {
  }

  /**
   How an append came to its writer: by none, by the new file of a `$` payload, by the kept one, whose
   size and the true length of the file are given, or by opening a file of that length, with `fstat`
   answering or not.
   */
  datatype Hold = NoWriter | NewFile | Reused(size: nat, length: nat) | Opened(answered: bool, length: nat)

  function KeptSize(h: Hold): nat {
    match h
    case NoWriter => 0
    case NewFile => 0
    case Reused(size, _) => size
    case Opened(answered, length) => if answered then length else 0
  }

  function FileLength(h: Hold): nat {
    if h.NoWriter? || h.NewFile? then 0 else h.length
  }

  /** The kept size is the length of the file; after opening, unless `fstat` raised on a non-empty file. */
  predicate ExactHold(h: Hold) {
    match h
    case NoWriter => true
    case NewFile => true
    case Reused(size, length) => size == length
    case Opened(answered, length) => answered || length == 0
  }

  lemma ExactHoldIff(h: Hold)
    ensures ExactHold(h) <==> KeptSize(h) == FileLength(h)
  {
  }

  /** The length of `current`, 0 when there is none yet. */
  function CurrentLength(dirs: map<string, Directory>, host: string): nat {
    if host in dirs && CURRENT in dirs[host].names && dirs[host].names[CURRENT] in dirs[host].data
    then |dirs[host].data[dirs[host].names[CURRENT]]| else 0
  }

  predicate CanOpen(dirs: map<string, Directory>, world: World, host: string) {
    !(host !in dirs && world.cannotMakeDirs) && !world.cannotOpen
  }

  /** The writer that an append of `host` on worker `w` comes to. */
  function HoldOf(dirs: map<string, Directory>, sticky: map<WorkerId, Sticky>, world: World, w: WorkerId,
      host: string): Hold {
    if w in sticky && sticky[w].host == host && !world.stale then Reused(sticky[w].size, CurrentLength(dirs, host))
    else if CanOpen(dirs, world, host) && !world.cannotLock then Opened(!world.cannotStat, CurrentLength(dirs, host))
    else NoWriter
  }

  /**
   A kept writer is reused exactly for its own host and while it is not stale; there is none exactly when
   it is not reused and a call of the opening raises.
   */
  lemma HoldIff(dirs: map<string, Directory>, sticky: map<WorkerId, Sticky>, world: World, w: WorkerId, host: string)
    ensures var h := HoldOf(dirs, sticky, world, w, host);
      && (h.Reused? <==> w in sticky && sticky[w].host == host && !world.stale)
      && (h.NoWriter? <==>
            && (w in sticky && sticky[w].host == host ==> world.stale)
            && ((host !in dirs && world.cannotMakeDirs) || world.cannotOpen || world.cannotLock))
      && (h.Reused? ==> h.size == sticky[w].size && h.length == CurrentLength(dirs, host))
      && (h.Opened? ==> (h.answered <==> !world.cannotStat) && h.length == CurrentLength(dirs, host))
  {
  }

  /** The kept writer `s` of `w` is open on the inode of its host's `current` and lags by `drift`. */
  predicate Agrees(dirs: map<string, Directory>, workerOf: string -> WorkerId, w: WorkerId, s: Sticky, drift: nat) {
    && workerOf(s.host) == w
    && s.host in dirs && WellFormed(dirs[s.host])
    && Binds(dirs[s.host], CURRENT, s.inode)
    && s.size + drift == |dirs[s.host].data[s.inode]|
  }

  ghost predicate ReceiptHolds(dirs: map<string, Directory>, r: Receipt) {
    r.host in dirs && Durable(dirs[r.host], r)
  }

  predicate InCurrent(d: Directory, r: Receipt) {
    Binds(d, CURRENT, r.inode)
  }

  /** All that must hold of the archive; the receipts in `lost` need no longer read back. */
  ghost predicate Consistent(dirs: map<string, Directory>, workerOf: string -> WorkerId, sticky: map<WorkerId, Sticky>,
                             drift: map<WorkerId, nat>, receipts: seq<Receipt>, lost: set<nat>)
  {
    && (forall h | h in dirs :: WellFormed(dirs[h]))
    && (forall w | w in sticky :: w in drift && Agrees(dirs, workerOf, w, sticky[w], drift[w]))
    && (forall i | 0 <= i < |receipts| && i !in lost :: ReceiptHolds(dirs, receipts[i]))
    && (forall i | i in lost :: i < |receipts|)
  }

  /** `host` is the only directory that changed, and it evolved. */
  ghost predicate OnlyHostEvolved(dirs: map<string, Directory>, dirs': map<string, Directory>, host: string) {
    && dirs' - {host} == dirs - {host}
    && (host in dirs ==> host in dirs' && Evolves(dirs[host], dirs'[host]))
  }

  lemma OnlyHostEvolvedTransitive(a: map<string, Directory>, b: map<string, Directory>, c: map<string, Directory>,
      host: string)
    requires OnlyHostEvolved(a, b, host) && OnlyHostEvolved(b, c, host)
    ensures OnlyHostEvolved(a, c, host)
  {
  }

  predicate Exact(sticky: map<WorkerId, Sticky>, drift: map<WorkerId, nat>) {
    forall w | w in sticky :: w in drift && drift[w] == 0
  }

  lemma ExactKept(sticky: map<WorkerId, Sticky>, drift: map<WorkerId, nat>,
                  sticky': map<WorkerId, Sticky>, drift': map<WorkerId, nat>, w: WorkerId)
    requires Exact(sticky, drift) && (w in sticky' ==> w in drift' && drift'[w] == 0)
    requires sticky' - {w} == sticky - {w} && drift' - {w} == drift - {w}
    ensures Exact(sticky', drift')
  {
    forall v | v in sticky' && v != w ensures v in drift' && drift'[v] == 0 {
      assert v in sticky' - {w} && v in sticky - {w};
      assert v in drift - {w} && (drift' - {w})[v] == (drift - {w})[v];
    }
  }

  /** Exactness is about which workers hold a writer, not about the sizes they have reached. */
  lemma SizesMayGrow(sticky: map<WorkerId, Sticky>, drift: map<WorkerId, nat>, sticky': map<WorkerId, Sticky>)
    requires Exact(sticky, drift) && sticky'.Keys == sticky.Keys
    ensures Exact(sticky', drift)
  {
    forall w | w in sticky' ensures w in drift && drift[w] == 0 {
      assert w in sticky'.Keys;
    }
  }

  lemma HoldLength(dirs: map<string, Directory>, sticky: map<WorkerId, Sticky>, world: World, w: WorkerId, host: string)
    ensures var h := HoldOf(dirs, sticky, world, w, host); !h.NoWriter? ==> FileLength(h) == CurrentLength(dirs, host)
  {
  }

  lemma EvolvesReflexive(dirs: map<string, Directory>, host: string)
    ensures OnlyHostEvolved(dirs, dirs, host)
  {
  }

  /**
   The worker of `host` replaces that host's directory by an evolved one; its kept writer is gone or
   agrees with the new directory. Every other worker's writer and every receipt stay good.
   */
  lemma HostChangeKeepsConsistency(
    dirs: map<string, Directory>, workerOf: string -> WorkerId, sticky: map<WorkerId, Sticky>,
    drift: map<WorkerId, nat>, receipts: seq<Receipt>, lost: set<nat>, host: string, d: Directory,
    sticky': map<WorkerId, Sticky>, drift': map<WorkerId, nat>)
    requires Consistent(dirs, workerOf, sticky, drift, receipts, lost)
    requires WellFormed(d) && (host in dirs ==> Evolves(dirs[host], d))
    requires var w := workerOf(host);
      && sticky' - {w} == sticky - {w} && drift' - {w} == drift - {w}
      && (w in sticky' ==> w in drift' && Agrees(dirs[host := d], workerOf, w, sticky'[w], drift'[w]))
    ensures Consistent(dirs[host := d], workerOf, sticky', drift', receipts, lost)
    ensures OnlyHostEvolved(dirs, dirs[host := d], host)
  {
    var w := workerOf(host);
    var dirs' := dirs[host := d];
    forall v | v in sticky' ensures v in drift' && Agrees(dirs', workerOf, v, sticky'[v], drift'[v]) {
      if v != w {
        assert v in sticky' - {w} && (sticky' - {w})[v] == (sticky - {w})[v];
        assert v in drift - {w} && (drift' - {w})[v] == (drift - {w})[v];
        assert Agrees(dirs, workerOf, v, sticky[v], drift[v]);
      }
    }
    forall i | 0 <= i < |receipts| && i !in lost ensures ReceiptHolds(dirs', receipts[i]) {
      assert ReceiptHolds(dirs, receipts[i]);
      if receipts[i].host == host {
        DurableKept(dirs[host], d, receipts[i]);
      }
    }
  }

  // ---- truncating the live file -------------------------------------------

  /** `open(current, "wb")` finds an existing `current`. */
  predicate Reopens(dirs: map<string, Directory>, world: World, host: string) {
    host in dirs && CURRENT in dirs[host].names && !world.cannotOpen
  }

  /** The directories once an existing `current` has been overwritten. */
  function Reopened(dirs: map<string, Directory>, world: World, host: string, payload: seq<Byte>)
      : map<string, Directory> {
    if Reopens(dirs, world, host) then dirs[host := Overwritten(dirs[host], Written(world, payload))] else dirs
  }

  /** A `$` append that does not see its `current` and truncates it. */
  predicate Truncates(dirs: map<string, Directory>, world: World, host: string) {
    world.existsRaises && !world.cannotMakeDirs && !world.cannotLock && Reopens(dirs, world, host)
  }

  function Struck(dirs: map<string, Directory>, world: World, host: string, payload: seq<Byte>)
      : map<string, Directory> {
    if Truncates(dirs, world, host) then Reopened(dirs, world, host, payload) else dirs
  }

  /** It truncates, and what was in `current` is not a prefix of what it writes. */
  predicate Loses(dirs: map<string, Directory>, world: World, host: string, payload: seq<Byte>) {
    && Truncates(dirs, world, host)
    && dirs[host].names[CURRENT] in dirs[host].data
    && !(dirs[host].data[dirs[host].names[CURRENT]] <= Written(world, payload))
  }

  /** The receipts that do not read back. */
  ghost function Unreadable(dirs: map<string, Directory>, receipts: seq<Receipt>): set<nat> {
    set i: nat | i < |receipts| && !ReceiptHolds(dirs, receipts[i])
  }

  /** Overwriting one host's `current` costs exactly the receipts that no longer read back. */
  lemma OverwriteKeepsConsistency(dirs: map<string, Directory>, workerOf: string -> WorkerId,
                                  sticky: map<WorkerId, Sticky>, drift: map<WorkerId, nat>,
                                  receipts: seq<Receipt>, lost: set<nat>, host: string, bytes: seq<Byte>)
    requires Consistent(dirs, workerOf, sticky, drift, receipts, lost)
    requires host in dirs && CURRENT in dirs[host].names && workerOf(host) !in sticky
    ensures var dirs' := dirs[host := Overwritten(dirs[host], bytes)];
      Consistent(dirs', workerOf, sticky, drift, receipts, lost + Unreadable(dirs', receipts))
  {
    var dirs' := dirs[host := Overwritten(dirs[host], bytes)];
    OverwriteEvolvesIff(dirs[host], bytes);
    forall v | v in sticky ensures v in drift && Agrees(dirs', workerOf, v, sticky[v], drift[v]) {
      assert Agrees(dirs, workerOf, v, sticky[v], drift[v]);
    }
  }

  lemma ReadableStays(dirs: map<string, Directory>, workerOf: string -> WorkerId, sticky: map<WorkerId, Sticky>,
                      drift: map<WorkerId, nat>, receipts: seq<Receipt>, lost: set<nat>)
    requires Consistent(dirs, workerOf, sticky, drift, receipts, lost)
    ensures lost + Unreadable(dirs, receipts) == lost
  {
    assert forall i | i in Unreadable(dirs, receipts) :: !ReceiptHolds(dirs, receipts[i]);
  }

  /** Without a loss the overwriting lets the directory evolve, and every receipt still reads back. */
  lemma HarmlessOverwrite(dirs: map<string, Directory>, workerOf: string -> WorkerId, sticky: map<WorkerId, Sticky>,
                          drift: map<WorkerId, nat>, receipts: seq<Receipt>, lost: set<nat>, world: World,
                          host: string, payload: seq<Byte>)
    requires Consistent(dirs, workerOf, sticky, drift, receipts, lost) && !Loses(dirs, world, host, payload)
    ensures OnlyHostEvolved(dirs, Struck(dirs, world, host, payload), host)
    ensures lost + Unreadable(Struck(dirs, world, host, payload), receipts) == lost
  {
    var dirs' := Struck(dirs, world, host, payload);
    if Truncates(dirs, world, host) {
      OverwriteEvolvesIff(dirs[host], Written(world, payload));
      forall i: nat | i < |receipts| && i !in lost ensures ReceiptHolds(dirs', receipts[i]) {
        if receipts[i].host == host {
          DurableKept(dirs[host], dirs'[host], receipts[i]);
        }
      }
    }
    forall i | i in Unreadable(dirs', receipts) ensures i in lost {
    }
  }

  /** A rotation that does not come to writing truncates nothing. */
  lemma NothingStruck(dirs: map<string, Directory>, d: Directory, cache: Option<CachedLink>, world: World,
                      host: string, payload: seq<Byte>)
    requires d == HostDir(dirs, host) && !ComesToWriting(d, cache, world)
    ensures Struck(dirs, world, host, payload) == dirs && !Truncates(dirs, world, host)
  {
  }

  /** With a loss, and only then, the directory has not evolved: its bytes are those the overwriting left. */
  lemma LossShows(dirs: map<string, Directory>, world: World, host: string, payload: seq<Byte>,
                  dirs': map<string, Directory>)
    requires host in dirs ==> WellFormed(dirs[host])
    requires OnlyHostEvolved(Struck(dirs, world, host, payload), dirs', host)
    requires Truncates(dirs, world, host) ==>
      host in dirs' && dirs'[host].data == Struck(dirs, world, host, payload)[host].data
    ensures OnlyHostEvolved(dirs, dirs', host) <==> !Loses(dirs, world, host, payload)
  {
    if Truncates(dirs, world, host) {
      var bytes := Written(world, payload);
      OverwriteEvolvesIff(dirs[host], bytes);
      OverwriteKeepsEpochs(dirs[host], bytes);
      if !Loses(dirs, world, host, payload) {
        EvolvesTransitive(dirs[host], Overwritten(dirs[host], bytes), dirs'[host]);
      }
    }
  }

  /**
   The rotation up to the opening of the new segment: if `exists` missed `current`, nothing has happened
   yet; otherwise there is none any more, so that nothing is truncated.
   */
  lemma BeforeOpening(dirs: map<string, Directory>, world: World, host: string, payload: seq<Byte>,
                      before: map<string, Directory>)
    requires !world.cannotMakeDirs && !world.cannotLock && host in before
    requires CURRENT in before[host].names ==> before == dirs && world.existsRaises
    requires host in dirs && CURRENT in dirs[host].names && world.existsRaises ==> before == dirs
    ensures Truncates(dirs, world, host) ==>
      before == dirs && Reopened(before, world, host, payload) == Struck(dirs, world, host, payload)
    ensures !Truncates(dirs, world, host) ==>
      Reopened(before, world, host, payload) == before && Struck(dirs, world, host, payload) == dirs
  {
  }

  /** The receipts a `$` append costs: those of its truncated inode whose range now reads otherwise. */
  lemma StruckReceiptIff(dirs: map<string, Directory>, world: World, host: string, payload: seq<Byte>, r: Receipt)
    requires ReceiptHolds(dirs, r) && (host in dirs ==> WellFormed(dirs[host]))
    ensures var bytes := Written(world, payload);
      !ReceiptHolds(Struck(dirs, world, host, payload), r) <==>
      && Truncates(dirs, world, host) && r.host == host && r.inode == dirs[host].names[CURRENT]
      && !(r.offset + |r.payload| <= |bytes| && bytes[r.offset..r.offset + |r.payload|] == r.payload)
  {
    if Truncates(dirs, world, host) && r.host == host {
      OverwriteLosesIff(dirs[host], Written(world, payload), r);
    }
  }

  /**
   Whatever payloads a host's directory holds, they survive a `$` append exactly when `exists` answered,
   or a call before the write raised, or there was no `current`, or what it held is what is written again.
   */
  lemma LosesIff(dirs: map<string, Directory>, world: World, host: string, payload: seq<Byte>)
    requires host in dirs ==> WellFormed(dirs[host])
    ensures Loses(dirs, world, host, payload) <==>
      exists r :: ReceiptHolds(dirs, r) && !ReceiptHolds(Struck(dirs, world, host, payload), r)
  {
    var dirs' := Struck(dirs, world, host, payload);
    if Truncates(dirs, world, host) {
      AllDurableIff(dirs[host], Written(world, payload));
      if Loses(dirs, world, host, payload) {
        var r :| Durable(dirs[host], r) && !Durable(dirs'[host], r);
        assert ReceiptHolds(dirs, r.(host := host)) && !ReceiptHolds(dirs', r.(host := host));
      }
    }
  }

  function Appended(d: Directory, i: Inode, payload: seq<Byte>): Directory
    requires i in d.data
  {
    d.(data := d.data[i := d.data[i] + payload])
  }

  lemma KeptWriterAgrees(dirs: map<string, Directory>, workerOf: string -> WorkerId, sticky: map<WorkerId, Sticky>,
                         drift: map<WorkerId, nat>, receipts: seq<Receipt>, lost: set<nat>, w: WorkerId)
    requires Consistent(dirs, workerOf, sticky, drift, receipts, lost) && w in sticky
    ensures w in drift && Agrees(dirs, workerOf, w, sticky[w], drift[w])
    ensures sticky[w].host in dirs && sticky[w].inode in dirs[sticky[w].host].data
    ensures Binds(dirs[sticky[w].host], CURRENT, sticky[w].inode)
    ensures sticky[w].size + drift[w] == CurrentLength(dirs, sticky[w].host)
  {
  }

  /** Appending through a kept writer, advancing its size and noting the receipt. */
  lemma KeptWriteKeepsConsistency(dirs: map<string, Directory>, workerOf: string -> WorkerId,
                                  sticky: map<WorkerId, Sticky>, drift: map<WorkerId, nat>,
                                  receipts: seq<Receipt>, lost: set<nat>, w: WorkerId, payload: seq<Byte>)
    requires Consistent(dirs, workerOf, sticky, drift, receipts, lost) && w in sticky && w in drift
    requires sticky[w].host in dirs && sticky[w].inode in dirs[sticky[w].host].data
    ensures var s := sticky[w];
      var dirs' := dirs[s.host := Appended(dirs[s.host], s.inode, payload)];
      && Consistent(dirs', workerOf, sticky[w := s.(size := s.size + |payload|)], drift,
                    receipts + [Receipt(s.host, s.inode, s.size + drift[w], payload)], lost)
      && OnlyHostEvolved(dirs, dirs', s.host)
  {
    hide Durable, Evolves, OnlyHostEvolved, WellFormed;
    var s := sticky[w];
    var d := dirs[s.host];
    KeptWriterAgrees(dirs, workerOf, sticky, drift, receipts, lost, w);
    AppendEvolves(d, s.host, payload);
    HostChangeKeepsConsistency(dirs, workerOf, sticky, drift, receipts, lost, s.host, Appended(d, s.inode, payload),
                               sticky[w := s.(size := s.size + |payload|)], drift);
  }

  lemma NewReceiptKeepsConsistency(dirs: map<string, Directory>, workerOf: string -> WorkerId,
                                   sticky: map<WorkerId, Sticky>, drift: map<WorkerId, nat>,
                                   receipts: seq<Receipt>, lost: set<nat>, r: Receipt)
    requires Consistent(dirs, workerOf, sticky, drift, receipts, lost)
    requires r.host in dirs && Durable(dirs[r.host], r.(host := ""))
    ensures Consistent(dirs, workerOf, sticky, drift, receipts + [r], lost)
  {
    assert ReceiptHolds(dirs, r);
  }

  lemma HostIsWellFormed(dirs: map<string, Directory>, workerOf: string -> WorkerId, sticky: map<WorkerId, Sticky>,
                         drift: map<WorkerId, nat>, receipts: seq<Receipt>, lost: set<nat>, host: string)
    requires Consistent(dirs, workerOf, sticky, drift, receipts, lost) && host in dirs
    ensures WellFormed(dirs[host])
  {
  }

  lemma ReleaseKeepsConsistency(dirs: map<string, Directory>, workerOf: string -> WorkerId,
                                sticky: map<WorkerId, Sticky>, drift: map<WorkerId, nat>,
                                receipts: seq<Receipt>, lost: set<nat>, w: WorkerId)
    requires Consistent(dirs, workerOf, sticky, drift, receipts, lost)
    ensures Consistent(dirs, workerOf, sticky - {w}, drift, receipts, lost)
  {
  }

  /** A writer just opened on `current`. */
  lemma OpeningKeepsConsistency(dirs: map<string, Directory>, workerOf: string -> WorkerId,
                                sticky: map<WorkerId, Sticky>, drift: map<WorkerId, nat>,
                                receipts: seq<Receipt>, lost: set<nat>, w: WorkerId, s: Sticky, lag: nat)
    requires Consistent(dirs, workerOf, sticky, drift, receipts, lost) && Agrees(dirs, workerOf, w, s, lag)
    ensures Consistent(dirs, workerOf, sticky[w := s], drift[w := lag], receipts, lost)
  {
  }

  /** What the record of a rotation says about the segment it closed and the one it opened. */
  ghost predicate RecordDescribes(rec: RotationRecord, host: string, before: Directory, after: Directory,
      world: World) {
    && CURRENT in before.names && CURRENT in after.names
    && var closed := before.names[CURRENT];
    && rec.fqdn == host
    && IsDigits(rec.closedPath) && Binds(after, rec.closedPath, closed) && closed != after.names[CURRENT]
    && rec.closedEpoch == ParseDecimal(rec.closedPath)
    && closed in before.data && closed in after.data
    && rec.closedBytes == |before.data[closed]| && after.data[closed] == before.data[closed]
    && rec.newEpoch > 0 && Binds(after, Decimal(rec.newEpoch), after.names[CURRENT])
    && rec.newEpoch >= world.newFirst.GetOr(world.wallClock) && rec.rotatedAt == world.wallClock
  }

  lemma RecordIsRight(host: string, d: Directory, before: map<string, Directory>, after: map<string, Directory>,
                      world: World, path: string, epoch: int, payload: seq<Byte>)
    requires host in before && host in after && OnlyHostEvolved(before, after, host)
    requires CURRENT in d.names && CURRENT !in before[host].names && d.names[CURRENT] in d.data
    requires before[host].data == d.data
    requires IsDigits(path) && Binds(before[host], path, d.names[CURRENT])
    requires CURRENT in after[host].names && after[host].names[CURRENT] !in before[host].names.Values
    requires after[host].data == before[host].data[after[host].names[CURRENT] := payload]
    requires epoch > 0 && epoch >= world.newFirst.GetOr(world.wallClock)
    requires Binds(after[host], Decimal(epoch), after[host].names[CURRENT])
    ensures RecordDescribes(
      RotationRecord(host, path, world.wallClock, ParseDecimal(path), |d.data[d.names[CURRENT]]|, epoch),
      host, d, after[host], world)
  {
    assert before[host].names[path] in before[host].names.Values;
    assert Binds(after[host], path, before[host].names[path]);
  }

  /**
   What one append leaves: nothing when it raised, else one receipt for the payload at its true offset,
   which is the reported one exactly when the hold was exact.
   */
  predicate Filed(r: Outcome<AppendResult>, h: Hold, before: seq<Receipt>, receipts: seq<Receipt>, p: seq<Byte>) {
    if r.Raised? then receipts == before
    else
      && |receipts| == |before| + 1 && receipts[..|before|] == before
      && Reported(r.value, h, receipts[|before|], p)
  }

  /** A result and its receipt: same host and payload, the reported offset right exactly when the hold was. */
  predicate Reported(r: AppendResult, h: Hold, receipt: Receipt, p: seq<Byte>) {
    && receipt.host == r.host && receipt.payload == p && r.length == |p|
    && r.offset == KeptSize(h) && receipt.offset == FileLength(h)
    && (r.offset == receipt.offset <==> ExactHold(h))
  }

  lemma NothingFiled(w: WorkerId, sticky: map<WorkerId, Sticky>, drift: map<WorkerId, nat>, receipts: seq<Receipt>,
                     p: seq<Byte>)
    ensures Filed(Raised(ValueError), NoWriter, receipts, receipts, p)
    ensures SizeCarried(NoWriter, w, sticky, drift, sticky, drift)
  {
  }

  /** One call: the archive thread, the payload it was given and how the system answers. */
  datatype Request = Request(worker: WorkerId, payload: seq<Byte>, world: World)

  /** Where the next receipt goes: behind the earlier ones, one for each append that returned. */
  function Place(start: nat, results: seq<Outcome<AppendResult>>): (k: nat)
    ensures k >= start
  {
    if results == [] then start
    else Place(start, results[..|results| - 1]) + if results[|results| - 1].Returned? then 1 else 0
  }

  lemma PlaceSnoc(start: nat, results: seq<Outcome<AppendResult>>, r: Outcome<AppendResult>)
    ensures Place(start, results + [r]) == Place(start, results) + if r.Returned? then 1 else 0
  {
    assert (results + [r])[..|results|] == results;
  }

  lemma {:induction false} PlacesGrow(start: nat, results: seq<Outcome<AppendResult>>, i: nat)
    requires i <= |results|
    ensures Place(start, results[..i]) <= Place(start, results)
    ensures i < |results| && results[i].Returned? ==> Place(start, results[..i]) < Place(start, results)
    decreases |results|
  {
    if i == |results| {
      assert results[..i] == results;
    } else {
      var front := results[..|results| - 1];
      assert front[..i] == results[..i];
      PlacesGrow(start, front, i);
    }
  }

  /** Each result that returned has its receipt at its place. */
  predicate AllReported(results: seq<Outcome<AppendResult>>, holds: seq<Hold>, start: nat, receipts: seq<Receipt>,
                        requests: seq<Request>) {
    && |results| == |holds| <= |requests|
    && forall i | 0 <= i < |results| && results[i].Returned? ::
         Place(start, results[..i]) < |receipts|
         && Reported(results[i].value, holds[i], receipts[Place(start, results[..i])], requests[i].payload)
  }

  lemma OneMoreReported(results: seq<Outcome<AppendResult>>, holds: seq<Hold>, start: nat, before: seq<Receipt>,
                        requests: seq<Request>, r: Outcome<AppendResult>, h: Hold, receipts: seq<Receipt>)
    requires AllReported(results, holds, start, before, requests) && |results| < |requests|
    requires |before| == Place(start, results)
    requires Filed(r, h, before, receipts, requests[|results|].payload)
    ensures AllReported(results + [r], holds + [h], start, receipts, requests)
    ensures before <= receipts && |receipts| == Place(start, results + [r])
  {
    hide Reported, Place;
    PlaceSnoc(start, results, r);
    var all := results + [r];
    forall i | 0 <= i < |all| && all[i].Returned?
      ensures Place(start, all[..i]) < |receipts|
      ensures Reported(all[i].value, (holds + [h])[i], receipts[Place(start, all[..i])], requests[i].payload)
    {
      assert all[..i] == results[..i];
      if i < |results| {
        assert receipts[..|before|][Place(start, results[..i])] == before[Place(start, results[..i])];
      } else {
        assert results[..i] == results;
      }
    }
  }

  // ---- how long a kept size stays right -----------------------------------

  predicate NoDrift(drift: map<WorkerId, nat>, w: WorkerId) {
    w in drift && drift[w] == 0
  }

  /** What one append of worker `w` does to the lag of its kept size: set by an opening, else carried along. */
  predicate SizeCarried(h: Hold, w: WorkerId, sticky: map<WorkerId, Sticky>, drift: map<WorkerId, nat>,
                        sticky': map<WorkerId, Sticky>, drift': map<WorkerId, nat>) {
    && (h.Reused? ==> w in sticky && (ExactHold(h) <==> NoDrift(drift, w)))
    && (w in sticky' ==> (h.Opened? || w in sticky)
                         && (NoDrift(drift', w) <==> if h.Opened? then ExactHold(h) else NoDrift(drift, w)))
  }

  /** Was the last opening by worker `w` exact; without one, `initially`? */
  predicate LastOpeningExact(requests: seq<Request>, holds: seq<Hold>, w: WorkerId, initially: bool)
    requires |holds| <= |requests|
  {
    if holds == [] then initially
    else
      var n := |holds| - 1;
      if requests[n].worker == w && holds[n].Opened? then ExactHold(holds[n])
      else LastOpeningExact(requests, holds[..n], w, initially)
  }

  lemma LastOpeningSnoc(requests: seq<Request>, holds: seq<Hold>, h: Hold, w: WorkerId, initially: bool)
    requires |holds| < |requests|
    ensures LastOpeningExact(requests, holds + [h], w, initially) <==>
      if requests[|holds|].worker == w && h.Opened? then ExactHold(h)
      else LastOpeningExact(requests, holds, w, initially)
  {
    assert (holds + [h])[..|holds|] == holds;
  }

  /** Every kept size is as right as the last opening of its writer. */
  predicate Sized(requests: seq<Request>, holds: seq<Hold>, drift0: map<WorkerId, nat>,
                  sticky: map<WorkerId, Sticky>, drift: map<WorkerId, nat>)
    requires |holds| <= |requests|
  {
    forall w | w in sticky :: NoDrift(drift, w) <==> LastOpeningExact(requests, holds, w, NoDrift(drift0, w))
  }

  /** The size a writer is reused with is right exactly when its last opening was. */
  predicate ReusedAsOpened(requests: seq<Request>, holds: seq<Hold>, drift0: map<WorkerId, nat>)
    requires |holds| <= |requests|
  {
    forall i | 0 <= i < |holds| && holds[i].Reused? ::
      ExactHold(holds[i]) <==>
      LastOpeningExact(requests, holds[..i], requests[i].worker, NoDrift(drift0, requests[i].worker))
  }

  lemma OneMoreSize(requests: seq<Request>, holds: seq<Hold>, h: Hold, drift0: map<WorkerId, nat>,
                    sticky: map<WorkerId, Sticky>, drift: map<WorkerId, nat>,
                    sticky': map<WorkerId, Sticky>, drift': map<WorkerId, nat>)
    requires |holds| < |requests| && Sized(requests, holds, drift0, sticky, drift)
    requires ReusedAsOpened(requests, holds, drift0)
    requires var w := requests[|holds|].worker;
      && sticky' - {w} == sticky - {w} && drift' - {w} == drift - {w}
      && SizeCarried(h, w, sticky, drift, sticky', drift')
    ensures Sized(requests, holds + [h], drift0, sticky', drift')
    ensures ReusedAsOpened(requests, holds + [h], drift0)
  {
    hide ExactHold, LastOpeningExact;
    var w := requests[|holds|].worker;
    forall v | v in sticky'
      ensures NoDrift(drift', v) <==> LastOpeningExact(requests, holds + [h], v, NoDrift(drift0, v))
    {
      LastOpeningSnoc(requests, holds, h, v, NoDrift(drift0, v));
      if v != w {
        OtherWorkersDrift(sticky, drift, sticky', drift', w, v);
      }
    }
    var all := holds + [h];
    forall i | 0 <= i < |all| && all[i].Reused?
      ensures ExactHold(all[i]) <==>
        LastOpeningExact(requests, all[..i], requests[i].worker, NoDrift(drift0, requests[i].worker))
    {
      assert all[..i] == holds[..i];
      if i == |holds| {
        assert holds[..i] == holds;
      }
    }
  }

  lemma OtherWorkersDrift(sticky: map<WorkerId, Sticky>, drift: map<WorkerId, nat>,
                          sticky': map<WorkerId, Sticky>, drift': map<WorkerId, nat>, w: WorkerId, v: WorkerId)
    requires sticky' - {w} == sticky - {w} && drift' - {w} == drift - {w} && v != w
    ensures v in sticky' <==> v in sticky
    ensures NoDrift(drift', v) <==> NoDrift(drift, v)
  {
    assert v in sticky' - {w} <==> v in sticky';
    assert v in sticky - {w} <==> v in sticky;
    assert v in drift' - {w} <==> v in drift';
    assert v in drift - {w} <==> v in drift;
    if v in drift {
      assert (drift' - {w})[v] == (drift - {w})[v];
    }
  }

  predicate HoldsExact(holds: seq<Hold>) {
    forall i | 0 <= i < |holds| :: ExactHold(holds[i])
  }

  /** `fstat` answered for every non-empty file that was opened. */
  predicate OpeningsExact(holds: seq<Hold>) {
    forall i | 0 <= i < |holds| && holds[i].Opened? :: ExactHold(holds[i])
  }

  lemma OneMoreHold(holds: seq<Hold>, h: Hold)
    ensures HoldsExact(holds + [h]) <==> HoldsExact(holds) && ExactHold(h)
    ensures OpeningsExact(holds + [h]) <==> OpeningsExact(holds) && (h.Opened? ==> ExactHold(h))
  {
    var all := holds + [h];
    assert all[|holds|] == h && forall i | 0 <= i < |holds| :: all[i] == holds[i];
  }

  // ---- closing a segment --------------------------------------------------

  /** The directory after binding `str(ts)` to `current`'s inode. */
  function WithEpoch(d: Directory, ts: nat): Directory
    requires CURRENT in d.names
  {
    d.(names := d.names[Decimal(ts) := d.names[CURRENT]])
  }

  lemma ProbeStep(d: Directory, ts: nat, step: int, attempts: nat, raising: set<Call>)
    requires attempts > 0 && ts > 0 && CURRENT in d.names
    ensures var name, r := Decimal(ts), Probe(d, ts, step, attempts, raising);
      if name in d.names && Exists(name) !in raising then
        r == if SameFile(name) !in raising && d.names[name] == d.names[CURRENT] then Returned(ts)
             else Probe(d, ts + step, step, attempts - 1, raising)
      else r == if name in d.names || Link(name) in raising then Raised(IoError) else Returned(ts)
  {
  }

  lemma ProbeGivesUp(d: Directory, ts: int, step: int, attempts: nat, raising: set<Call>)
    ensures attempts == 0 || ts <= 0 ==> Probe(d, ts, step, attempts, raising) == Raised(RuntimeError)
  {
  }

  /** The digit name that an unlinked `current` is given before it is unlinked. */
  function Ensured(d: Directory, firstSample: Option<int>, cutoff: int, raising: set<Call>): Outcome<int> {
    if firstSample.None? then Raised(RuntimeError)
    else
      Probe(d, if firstSample.value < cutoff - 1 then firstSample.value else cutoff - 1, -1,
            DIGIT_EPOCH_NAME_MAX_ATTEMPTS, raising)
  }

  /** The directory with a digit link of `current`: it was seen, or one is made. */
  ghost function LinkedDir(d: Directory, cache: Option<CachedLink>, world: World): Directory
    requires CURRENT in d.names
  {
    if LinkSeen(d, cache, world.closing) then d
    else
      match Ensured(d, world.closedFirst, world.wallClock, world.closing)
      case Returned(ts) => if ts >= 0 then WithEpoch(d, ts) else d
      case Raised(_) => d
  }

  /**
   Can the rotation close `current`, and does it know the epoch? The first look sees a link; or one is
   made and the second look sees it. Then the unlink must not raise.
   */
  ghost predicate Closes(d: Directory, cache: Option<CachedLink>, world: World)
    requires CURRENT in d.names
  {
    Unlink !in world.checking && SeesLink(d, cache, world)
  }

  ghost predicate SeesLink(d: Directory, cache: Option<CachedLink>, world: World)
    requires CURRENT in d.names
  {
    || LinkSeen(d, cache, world.closing)
    || (Ensured(d, world.closedFirst, world.wallClock, world.closing).Returned?
        && LinkSeen(LinkedDir(d, cache, world), CacheMade(d, world), world.checking))
  }

  /** What is cached once a digit link has been made. */
  function CacheMade(d: Directory, world: World): Option<CachedLink>
    requires CURRENT in d.names
  {
    match Ensured(d, world.closedFirst, world.wallClock, world.closing)
    case Returned(ts) =>
      if Stat in world.closing || ts < 0 then None else Some(CachedLink(Decimal(ts), d.names[CURRENT]))
    case Raised(_) => None
  }

  /** The path of the closed epoch is known: from the cache, or because the `stat` of it answered. */
  ghost predicate EpochKnown(d: Directory, cache: Option<CachedLink>, world: World)
    requires CURRENT in d.names
  {
    if LinkSeen(d, cache, world.closing) then CachedHit(d, cache, world.closing) || Stat !in world.closing
    else CachedHit(LinkedDir(d, cache, world), CacheMade(d, world), world.checking) || Stat !in world.checking
  }

  /**
   With no call raising, a `current` is closed, and its epoch known, exactly when it is linked already or
   has a plausible first sample second above 0 from which a usable name is found downwards.
   */
  lemma QuietClose(d: Directory, cache: Option<CachedLink>, world: World)
    requires CURRENT in d.names && (cache.Some? ==> IsDigits(cache.value.path))
    requires world.closing == {} && world.checking == {}
    ensures Closes(d, cache, world) <==>
      || Linked(d)
      || (world.closedFirst.Some?
          && FirstUsable(d, if world.closedFirst.value < world.wallClock - 1 then world.closedFirst.value
                            else world.wallClock - 1, -1, 10_000).Some?)
    ensures EpochKnown(d, cache, world)
  {
    hide LinkSeen, Probe, FirstUsable;
    SeenIsLinked(d, cache, {});
    if world.closedFirst.Some? {
      var start := if world.closedFirst.value < world.wallClock - 1 then world.closedFirst.value
                   else world.wallClock - 1;
      QuietProbe(d, start, -1, DIGIT_EPOCH_NAME_MAX_ATTEMPTS);
      ProbedIsUsable(d, start, -1, DIGIT_EPOCH_NAME_MAX_ATTEMPTS, {});
      var ensured := Ensured(d, world.closedFirst, world.wallClock, {});
      if ensured.Returned? {
        var d' := WithEpoch(d, ensured.value);
        EpochIsLinked(d, ensured.value);
        DecimalRoundTrip(ensured.value);
        SeenIsLinked(d', CacheMade(d, world), {});
      }
    }
  }

  lemma EpochIsLinked(d: Directory, ts: nat)
    requires CURRENT in d.names && Usable(d, ts)
    ensures Linked(WithEpoch(d, ts))
  {
    DecimalRoundTrip(ts);
    CurrentIsNoDigitName();
    assert Binds(WithEpoch(d, ts), Decimal(ts), d.names[CURRENT]);
  }

  /** The directory when the new segment is about to be written. */
  ghost function ClosedDir(d: Directory, cache: Option<CachedLink>, world: World): Directory {
    if CURRENT !in d.names || world.existsRaises then d
    else
      var linked := LinkedDir(d, cache, world);
      linked.(names := linked.names - {CURRENT})
  }

  /** The rotation comes to writing the new segment. */
  ghost predicate ComesToWriting(d: Directory, cache: Option<CachedLink>, world: World) {
    && !world.cannotMakeDirs && !world.cannotLock
    && (CURRENT in d.names && !world.existsRaises ==> Closes(d, cache, world))
  }

  /** `segment` is that directory once the payload has been written as `current`. */
  ghost predicate OpenedFrom(closed: Directory, segment: Directory, payload: seq<Byte>) {
    && CURRENT in segment.names
    && var i := segment.names[CURRENT];
    && segment == Directory(closed.names[CURRENT := i], closed.data[i := payload])
    && (if CURRENT in closed.names then i == closed.names[CURRENT] else i !in closed.names.Values)
  }

  /**
   When a rotation returns: it comes to writing, the write goes through, and the file, then `segment`, gets
   a name at or above its first sample second.
   */
  ghost predicate Rotates(d: Directory, cache: Option<CachedLink>, world: World, payload: seq<Byte>,
                          segment: Directory, returned: bool)
  {
    && (ComesToWriting(d, cache, world) && !world.cannotOpen && !world.writeRaises ==>
          OpenedFrom(ClosedDir(d, cache, world), segment, payload))
    && (returned <==>
          && ComesToWriting(d, cache, world) && !world.cannotOpen && !world.writeRaises
          && Probe(segment, world.newFirst.GetOr(world.wallClock), 1, DIGIT_EPOCH_NAME_MAX_ATTEMPTS,
                   world.naming).Returned?)
  }

  /** A rotation that returns leaves a record exactly when it closed a segment whose epoch it knows. */
  ghost predicate RecordsRotation(d: Directory, cache: Option<CachedLink>, world: World) {
    CURRENT in d.names && !world.existsRaises && EpochKnown(d, cache, world)
  }

  /** With no call raising, the new segment is named exactly when not all upward names are taken by others. */
  lemma QuietNaming(segment: Directory, start: nat)
    requires start > 0
    ensures Probe(segment, start, 1, DIGIT_EPOCH_NAME_MAX_ATTEMPTS, {}).Returned? <==>
      |Foreign(segment, start, 10_000)| < 10_000
  {
    hide Probe, FirstUsable, Foreign;
    QuietProbe(segment, start, 1, DIGIT_EPOCH_NAME_MAX_ATTEMPTS);
    UpwardProbeSucceedsIff(segment, start, DIGIT_EPOCH_NAME_MAX_ATTEMPTS);
  }

  lemma CurrentHasData(d: Directory, d': Directory)
    requires WellFormed(d) && CURRENT in d.names && d'.data == d.data && Binds(d', CURRENT, d.names[CURRENT])
    ensures CURRENT in d'.names && d'.names[CURRENT] in d'.data
    ensures |d'.data[d'.names[CURRENT]]| == |d.data[d.names[CURRENT]]|
  {
  }

  lemma ClosedIsUnlinked(d: Directory, cache: Option<CachedLink>, world: World)
    requires CURRENT in d.names
    ensures var linked := LinkedDir(d, cache, world);
      ClosedDir(d, cache, world.(existsRaises := false)) == linked.(names := linked.names - {CURRENT})
  {
    assert LinkedDir(d, cache, world.(existsRaises := false)) == LinkedDir(d, cache, world);
  }

  lemma DigitNamesStay(d: Directory, d': Directory, path: string)
    requires d' == d.(names := d.names - {CURRENT}) && IsDigits(path)
    ensures forall i | Binds(d, path, i) :: Binds(d', path, i)
  {
    CurrentIsNoDigitName();
  }

  lemma SeenFileStays(d: Directory, cache: Option<CachedLink>, world: World)
    ensures CURRENT !in d.names || world.existsRaises ==> ClosedDir(d, cache, world) == d
    ensures CURRENT in ClosedDir(d, cache, world).names ==> world.existsRaises
  {
  }

  /** Whether `exists` answers plays no part once the segment is being closed. */
  lemma LookAgain(d: Directory, cache: Option<CachedLink>, world: World)
    ensures CURRENT in d.names && !world.existsRaises ==>
      ClosedDir(d, cache, world.(existsRaises := false)) == ClosedDir(d, cache, world)
  {
  }

  function HostDir(dirs: map<string, Directory>, host: string): Directory {
    if host in dirs then dirs[host] else Directory(map[], map[])
  }

  class Archive {
    const hostOf: seq<Byte> -> Option<string>
    const workerOf: string -> WorkerId

    var dirs: map<string, Directory>
    var digitLinkCache: map<string, CachedLink>
    var sticky: map<WorkerId, Sticky>

    /** Every payload whose append returned. */
    ghost var receipts: seq<Receipt>
    /** Those of them that an overwriting of their file has cost, by position. */
    ghost var lost: set<nat>
    /** By how much the kept size of a worker lags behind its file, after an `fstat` that raised. */
    ghost var drift: map<WorkerId, nat>

    constructor (hostOf: seq<Byte> -> Option<string>, workerOf: string -> WorkerId)
      ensures Valid() && receipts == [] && lost == {} && dirs == map[] && sticky == map[]
      ensures this.hostOf == hostOf && this.workerOf == workerOf
    {
      this.hostOf, this.workerOf := hostOf, workerOf;
      dirs, digitLinkCache, sticky := map[], map[], map[];
      receipts, lost, drift := [], {}, map[];
    }

    ghost predicate CacheValid()
      reads this
    {
      forall h | h in digitLinkCache :: IsDigits(digitLinkCache[h].path)
    }

    ghost predicate Valid()
      reads this
    {
      CacheValid() && Consistent(dirs, workerOf, sticky, drift, receipts, lost)
    }

    /** Every kept size is the length of its file. */
    ghost predicate SizesExact()
      reads this
    {
      Exact(sticky, drift)
    }

    // ---- digit-link cache -------------------------------------------------

    function CacheOf(host: string): Option<CachedLink>
      reads this
    {
      if host in digitLinkCache then Some(digitLinkCache[host]) else None
    }

    /** `raises` is the `stat` of the path. */
    method RememberDigitEpochLink(host: string, path: string, raises: bool)
      requires host in dirs && path in dirs[host].names && IsDigits(path) && CacheValid()
      modifies `digitLinkCache
      ensures CacheValid()
      ensures digitLinkCache ==
        if raises then old(digitLinkCache) else old(digitLinkCache)[host := CachedLink(path, dirs[host].names[path])]
    {
      if raises {
        return;
      }
      digitLinkCache := digitLinkCache[host := CachedLink(path, dirs[host].names[path])];
    }

    /**
     Is `current` hard-linked to a digit epoch? A true answer is right, and so is a false one when no call
     raised. What stays cached names an epoch of `current`'s inode; after a false answer nothing does.
     */
    method CurrentIsHardlinkedToDigitEpoch(host: string, raising: set<Call>) returns (linked: bool)
      requires host in dirs && CacheValid()
      modifies `digitLinkCache
      ensures CacheValid()
      ensures digitLinkCache - {host} == old(digitLinkCache) - {host}
      ensures linked <==> LinkSeen(dirs[host], old(CacheOf(host)), raising)
      ensures host in digitLinkCache <==>
        linked && (CachedHit(dirs[host], old(CacheOf(host)), raising) || Stat !in raising)
      ensures host in digitLinkCache ==>
        CURRENT in dirs[host].names && Binds(dirs[host], digitLinkCache[host].path, dirs[host].names[CURRENT])
    {
      var d := dirs[host];
      if host in digitLinkCache {
        var cached := digitLinkCache[host];
        if StatCached !in raising && CURRENT in d.names && cached.path in d.names {
          if d.names[CURRENT] == d.names[cached.path] == cached.inode {
            return true;
          }
        }
        digitLinkCache := digitLinkCache - {host};
      }
      if Scan in raising {
        return false;
      }
      var unseen := d.names.Keys;
      while unseen != {}
        invariant unseen <= d.names.Keys
        invariant CacheValid() && host !in digitLinkCache && digitLinkCache - {host} == old(digitLinkCache) - {host}
        invariant forall n | n in d.names && n !in unseen && IsDigits(n) && SameFile(n) !in raising ::
          !(CURRENT in d.names && d.names[n] == d.names[CURRENT])
      {
        var name :| name in unseen;
        unseen := unseen - {name};
        if !IsDigits(name) || SameFile(name) in raising {
          continue;
        }
        if CURRENT in d.names && d.names[name] == d.names[CURRENT] {
          assert Binds(d, name, d.names[CURRENT]);
          RememberDigitEpochLink(host, name, Stat in raising);
          return true;
        }
      }
      return false;
    }

    // ---- digit-name probing -----------------------------------------------

    method LinkCurrentToUniqueDigitEpoch(host: string, start: int, step: int, raising: set<Call>)
        returns (r: Outcome<int>)
      requires host in dirs && CURRENT in dirs[host].names && CacheValid()
      modifies `dirs, `digitLinkCache
      ensures CacheValid()
      ensures r == if step == 0 then Raised(ValueError)
                   else Probe(old(dirs[host]), start, step, DIGIT_EPOCH_NAME_MAX_ATTEMPTS, raising)
      ensures r.Returned? ==>
        && r.value > 0 && Usable(old(dirs[host]), r.value)
        && dirs == old(dirs)[host := WithEpoch(old(dirs[host]), r.value)]
        && digitLinkCache ==
             if Stat in raising then old(digitLinkCache)
             else old(digitLinkCache)[host := CachedLink(Decimal(r.value), old(dirs[host]).names[CURRENT])]
      ensures r.Raised? ==> dirs == old(dirs) && digitLinkCache == old(digitLinkCache)
      ensures r.Returned? ==> (step > 0 ==> r.value >= start) && (step < 0 ==> r.value <= start)
    {
      hide Probe, Taken, PassedOver;
      if step == 0 {
        return Raised(ValueError);
      }
      var d := dirs[host];
      var ts := start;
      var i := 0;
      ProbedIsUsable(d, start, step, DIGIT_EPOCH_NAME_MAX_ATTEMPTS, raising);
      while i < DIGIT_EPOCH_NAME_MAX_ATTEMPTS && ts > 0
        invariant 0 <= i <= DIGIT_EPOCH_NAME_MAX_ATTEMPTS
        invariant dirs == old(dirs) && digitLinkCache == old(digitLinkCache)
        invariant Probe(d, start, step, DIGIT_EPOCH_NAME_MAX_ATTEMPTS, raising) ==
                  Probe(d, ts, step, DIGIT_EPOCH_NAME_MAX_ATTEMPTS - i, raising)
      {
        DecimalRoundTrip(ts);
        ProbeStep(d, ts, step, DIGIT_EPOCH_NAME_MAX_ATTEMPTS - i, raising);
        var name := Decimal(ts);
        if name in d.names && Exists(name) !in raising {
          if SameFile(name) !in raising && d.names[name] == d.names[CURRENT] {
            assert WithEpoch(d, ts) == d && dirs[host := d] == dirs;
            RememberDigitEpochLink(host, name, Stat in raising);
            return Returned(ts);
          }
          ts := ts + step;
          i := i + 1;
          continue;
        }
        if name in d.names || Link(name) in raising {
          return Raised(IoError);   // os.link: the name is bound after all, or it cannot be
        }
        dirs := dirs[host := WithEpoch(d, ts)];
        RememberDigitEpochLink(host, name, Stat in raising);
        return Returned(ts);
      }
      ProbeGivesUp(d, ts, step, DIGIT_EPOCH_NAME_MAX_ATTEMPTS - i, raising);
      return Raised(RuntimeError);
    }

    /**
     Give an unlinked `current` a digit name at or below its first sample second and below the cutoff.
     Without a plausible sample second, or with no name left above 0, it raises.
     */
    method EnsureCurrentHardlinkedToTimestamp(host: string, firstSample: Option<int>, cutoff: int,
                                              raising: set<Call>) returns (r: Outcome<int>)
      requires host in dirs && CURRENT in dirs[host].names && CacheValid()
      modifies `dirs, `digitLinkCache
      ensures CacheValid()
      ensures r == Ensured(old(dirs[host]), firstSample, cutoff, raising)
      ensures r.Returned? ==>
        && firstSample.Some? && 0 < r.value <= firstSample.value && r.value < cutoff
        && Usable(old(dirs[host]), r.value)
        && dirs == old(dirs)[host := WithEpoch(old(dirs[host]), r.value)]
        && digitLinkCache ==
             if Stat in raising then old(digitLinkCache)
             else old(digitLinkCache)[host := CachedLink(Decimal(r.value), old(dirs[host]).names[CURRENT])]
      ensures r.Raised? ==> dirs == old(dirs) && digitLinkCache == old(digitLinkCache)
    {
      if firstSample.None? {
        return Raised(RuntimeError);
      }
      var start := if firstSample.value < cutoff - 1 then firstSample.value else cutoff - 1;
      if start <= 0 {
        return Raised(RuntimeError);
      }
      r := LinkCurrentToUniqueDigitEpoch(host, start, -1, raising);
    }

    // ---- kept writer ------------------------------------------------------

    method ReleaseStickyArchiveWriter(w: WorkerId)
      modifies `sticky
      ensures sticky == old(sticky) - {w}
    {
      sticky := sticky - {w};
    }

    /** Create the host directory when it is missing. */
    method MakeDirs(host: string)
      modifies `dirs
      ensures dirs == if host in old(dirs) then old(dirs) else old(dirs)[host := Directory(map[], map[])]
    {
      if host !in dirs {
        dirs := dirs[host := Directory(map[], map[])];
      }
    }

    /** `MakeDirs` as a step of the archive. */
    method MakeHost(host: string)
      requires Valid()
      modifies `dirs
      ensures Valid() && OnlyHostEvolved(old(dirs), dirs, host) && host in dirs
      ensures if host in old(dirs) then dirs == old(dirs) else dirs == old(dirs)[host := Directory(map[], map[])]
    {
      EvolvesReflexive(dirs, host);
      MakeDirs(host);
      if host !in old(dirs) {
        HostChangeKeepsConsistency(old(dirs), workerOf, sticky, drift, receipts, lost, host, dirs[host],
                                   sticky, drift);
      }
    }

    /** Open `current` for writing, creating an empty file on an inode nothing names. */
    method CreateCurrent(host: string, bytes: seq<Byte>) returns (i: Inode)
      requires host in dirs && WellFormed(dirs[host]) && CURRENT !in dirs[host].names
      modifies `dirs
      ensures i !in old(dirs[host]).names.Values
      ensures dirs == old(dirs)[host :=
          Directory(old(dirs[host]).names[CURRENT := i], old(dirs[host]).data[i := bytes])]
      ensures WellFormed(dirs[host]) && Evolves(old(dirs[host]), dirs[host])
      ensures Durable(dirs[host], Receipt("", i, 0, bytes))
    {
      FreshInodeExists(dirs[host].names.Values);
      i :| i !in dirs[host].names.Values;
      CreateEvolves(dirs[host], i, bytes);
      dirs := dirs[host := Directory(dirs[host].names[CURRENT := i], dirs[host].data[i := bytes])];
    }

    /** `open(current, "ab")`: make sure `current` exists. May raise, leaving a consistent archive. */
    method OpenForAppend(host: string, world: World) returns (ready: bool)
      requires Valid() && workerOf(host) !in sticky
      modifies `dirs
      ensures Valid() && OnlyHostEvolved(old(dirs), dirs, host)
      ensures ready <==> CanOpen(old(dirs), world, host)
      ensures ready ==> host in dirs && CURRENT in dirs[host].names
      ensures CurrentLength(dirs, host) == CurrentLength(old(dirs), host)
    {
      EvolvesReflexive(old(dirs), host);
      if host !in dirs && world.cannotMakeDirs {
        return false;
      }
      MakeDirs(host);
      HostChangeKeepsConsistency(old(dirs), workerOf, sticky, drift, receipts, lost, host, dirs[host], sticky, drift);
      assert dirs == old(dirs)[host := dirs[host]];
      if world.cannotOpen {
        return false;
      }
      if CURRENT !in dirs[host].names {
        ghost var made := dirs;
        var created := CreateCurrent(host, []);
        HostChangeKeepsConsistency(made, workerOf, sticky, drift, receipts, lost, host, dirs[host], sticky, drift);
        OnlyHostEvolvedTransitive(old(dirs), made, dirs, host);
      }
      return true;
    }

    /**
     Open the kept writer of `w` on `host`'s `current`. Its size is that of the file when `fstat`
     answers, and otherwise 0.
     */
    method OpenSticky(w: WorkerId, host: string, world: World) returns (ready: bool)
      requires Valid() && workerOf(host) == w
      modifies `dirs, `sticky, `drift
      ensures Valid() && OnlyHostEvolved(old(dirs), dirs, host)
      ensures sticky - {w} == old(sticky) - {w} && drift - {w} == old(drift) - {w}
      ensures ready <==> CanOpen(old(dirs), world, host) && !world.cannotLock
      ensures !ready ==> w !in sticky
      ensures CurrentLength(dirs, host) == CurrentLength(old(dirs), host)
      ensures ready ==>
        && w in sticky && sticky[w].host == host
        && sticky[w].size == (if world.cannotStat then 0 else CurrentLength(old(dirs), host))
        && w in drift && drift[w] == (if world.cannotStat then CurrentLength(old(dirs), host) else 0)
    {
      hide Consistent, OnlyHostEvolved, Evolves;
      ReleaseKeepsConsistency(dirs, workerOf, sticky, drift, receipts, lost, w);
      ReleaseStickyArchiveWriter(w);
      ready := OpenForAppend(host, world);
      if !ready {
        return;
      }
      if world.cannotLock {
        return false;   // the lock sidecar could not be opened in time
      }
      HostIsWellFormed(dirs, workerOf, sticky, drift, receipts, lost, host);
      var i := dirs[host].names[CURRENT];
      var size := |dirs[host].data[i]|;
      var lag := 0;
      if world.cannotStat {
        size, lag := 0, size;   // fstat raised: the size is taken to be 0
      }
      OpeningKeepsConsistency(dirs, workerOf, sticky, drift, receipts, lost, w, Sticky(host, i, size), lag);
      sticky := sticky[w := Sticky(host, i, size)];
      drift := drift[w := lag];
    }

    /** Reuse the kept writer when it is still good for `host`, else reopen. */
    method HoldSticky(w: WorkerId, host: string, world: World) returns (ready: bool)
      requires Valid() && workerOf(host) == w
      modifies `dirs, `sticky, `drift
      ensures Valid() && OnlyHostEvolved(old(dirs), dirs, host)
      ensures sticky - {w} == old(sticky) - {w} && drift - {w} == old(drift) - {w}
      ensures var h := HoldOf(old(dirs), old(sticky), world, w, host);
        && (ready <==> !h.NoWriter?)
        && (ready ==> w in sticky && sticky[w].host == host && sticky[w].size == KeptSize(h))
        && SizeCarried(h, w, old(sticky), old(drift), sticky, drift)
      ensures !ready ==> w !in sticky
      ensures CurrentLength(dirs, host) == CurrentLength(old(dirs), host)
    {
      hide Consistent, OnlyHostEvolved, CurrentLength;
      if w in sticky && sticky[w].host == host {
        if !world.stale {
          KeptWriterAgrees(dirs, workerOf, sticky, drift, receipts, lost, w);
          EvolvesReflexive(dirs, host);
          return true;
        }
      }
      ready := OpenSticky(w, host, world);
    }

    /** Write on the kept descriptor and advance the kept size: the bytes go to the end of the file. */
    method WriteKept(w: WorkerId, host: string, payload: seq<Byte>) returns (offset: nat)
      requires Valid() && w in sticky && sticky[w].host == host
      modifies `dirs, `sticky, `receipts
      ensures Valid() && OnlyHostEvolved(old(dirs), dirs, host)
      ensures offset == old(sticky)[w].size
      ensures sticky == old(sticky)[w := old(sticky)[w].(size := offset + |payload|)]
      ensures receipts == old(receipts) + [Receipt(host, sticky[w].inode, CurrentLength(old(dirs), host), payload)]
      ensures host in dirs && Binds(dirs[host], CURRENT, sticky[w].inode)
      ensures CurrentLength(dirs, host) == CurrentLength(old(dirs), host) + |payload|
    {
      hide Consistent, Agrees, OnlyHostEvolved, CurrentLength;
      var s := sticky[w];
      KeptWriterAgrees(dirs, workerOf, sticky, drift, receipts, lost, w);
      KeptWriteKeepsConsistency(dirs, workerOf, sticky, drift, receipts, lost, w, payload);
      offset := s.size;
      dirs := dirs[host := Appended(dirs[host], s.inode, payload)];
      sticky := sticky[w := s.(size := s.size + |payload|)];
      receipts := receipts + [Receipt(host, s.inode, s.size + drift[w], payload)];
      KeptWriterAgrees(dirs, workerOf, sticky, drift, receipts, lost, w);
    }

    /** A write that raised: some bytes may have reached the file, and the writer is given up. */
    method LandAndRelease(w: WorkerId, host: string, bytes: seq<Byte>)
      requires Valid() && w in sticky && sticky[w].host == host
      modifies `dirs, `sticky
      ensures Valid() && OnlyHostEvolved(old(dirs), dirs, host)
      ensures sticky == old(sticky) - {w}
    {
      hide Consistent, OnlyHostEvolved, CurrentLength;
      var s := sticky[w];
      KeptWriterAgrees(dirs, workerOf, sticky, drift, receipts, lost, w);
      AppendEvolves(dirs[host], host, bytes);
      HostChangeKeepsConsistency(dirs, workerOf, sticky, drift, receipts, lost, host,
                                 Appended(dirs[host], s.inode, bytes), sticky - {w}, drift);
      dirs := dirs[host := Appended(dirs[host], s.inode, bytes)];
      ReleaseStickyArchiveWriter(w);
    }

    /**
     Append sample bytes on the kept descriptor, opening it when the worker holds another host's. The
     payload lands at the end of `current`; the returned offset is the kept size, so it is right
     exactly when the kept size was, which for a writer opened by this call means that `fstat`
     answered or the file was empty.
     */
    method StickyAppendSampleBytes(w: WorkerId, host: string, payload: seq<Byte>, world: World)
        returns (r: Outcome<nat>)
      requires Valid() && workerOf(host) == w
      modifies `dirs, `sticky, `drift, `receipts
      ensures Valid() && OnlyHostEvolved(old(dirs), dirs, host)
      ensures sticky - {w} == old(sticky) - {w} && drift - {w} == old(drift) - {w}
      ensures var h := HoldOf(old(dirs), old(sticky), world, w, host);
        && (r.Returned? <==> !h.NoWriter? && !world.flockTimesOut && !world.writeRaises)
        && (r.Returned? ==>
              && w in sticky && sticky[w].host == host && sticky[w].size == r.value + |payload|
              && r.value == KeptSize(h)
              && receipts == old(receipts) + [Receipt(host, sticky[w].inode, FileLength(h), payload)]
              && host in dirs && InCurrent(dirs[host], receipts[|receipts| - 1])
              && CurrentLength(dirs, host) == FileLength(h) + |payload|
              && (r.value == FileLength(h) <==> ExactHold(h)))
        && (old(SizesExact()) && ExactHold(h) ==> SizesExact())
        && SizeCarried(h, w, old(sticky), old(drift), sticky, drift)
        && (w in sticky <==> !h.NoWriter? && (world.flockTimesOut || !world.writeRaises))
      ensures r.Raised? ==> receipts == old(receipts)
    {
      hide Consistent, OnlyHostEvolved, Exact, Agrees, CurrentLength;
      ghost var h := HoldOf(dirs, sticky, world, w, host);
      ExactHoldIff(h);
      HoldLength(dirs, sticky, world, w, host);
      var ready := HoldSticky(w, host, world);
      if !ready {
        if Exact(old(sticky), old(drift)) {
          ExactKept(old(sticky), old(drift), sticky, drift, w);
        }
        return Raised(IoError);
      }
      KeptWriterAgrees(dirs, workerOf, sticky, drift, receipts, lost, w);
      if Exact(old(sticky), old(drift)) && ExactHold(h) {
        ExactKept(old(sticky), old(drift), sticky, drift, w);
      }
      ghost var mid := dirs;
      if world.flockTimesOut {
        return Raised(IoError);   // the kept writer stays
      }
      if world.writeRaises {
        ReleaseKeepsConsistency(dirs, workerOf, sticky, drift, receipts, lost, w);
        if Exact(sticky, drift) {
          ExactKept(sticky, drift, sticky - {w}, drift, w);
        }
        LandAndRelease(w, host, Written(world, payload));
        OnlyHostEvolvedTransitive(old(dirs), mid, dirs, host);
        return Raised(IoError);
      }
      ghost var held := sticky;
      var offset := WriteKept(w, host, payload);
      if Exact(held, drift) {
        SizesMayGrow(held, drift, sticky);
      }
      OnlyHostEvolvedTransitive(old(dirs), mid, dirs, host);
      r := Returned(offset);
    }

    // ---- rotation ---------------------------------------------------------

    /** See a digit link of `current`, or make one and see that. */
    method SeeOrMakeLink(host: string, world: World) returns (r: Outcome<()>)
      requires Valid() && workerOf(host) !in sticky && host in dirs && CURRENT in dirs[host].names
      modifies `dirs, `digitLinkCache
      ensures Valid() && OnlyHostEvolved(old(dirs), dirs, host)
      ensures host in dirs && dirs[host].data == old(dirs[host]).data
      ensures r.Returned? <==> SeesLink(old(dirs[host]), old(CacheOf(host)), world)
      ensures r.Returned? ==>
        && dirs == old(dirs)[host := LinkedDir(old(dirs[host]), old(CacheOf(host)), world)] && Linked(dirs[host])
        && Binds(dirs[host], CURRENT, old(dirs[host]).names[CURRENT])
        && (host in digitLinkCache <==> EpochKnown(old(dirs[host]), old(CacheOf(host)), world))
        && (host in digitLinkCache ==>
              Binds(dirs[host], digitLinkCache[host].path, old(dirs[host]).names[CURRENT]))
    {
      hide Consistent, OnlyHostEvolved, Evolves, Usable, LinkSeen, Ensured, CachedHit, WellFormed;
      EvolvesReflexive(dirs, host);
      HostIsWellFormed(dirs, workerOf, sticky, drift, receipts, lost, host);
      ghost var d, cache := dirs[host], CacheOf(host);
      SeenIsLinked(d, cache, world.closing);
      assert dirs[host := d] == dirs;
      var linked := CurrentIsHardlinkedToDigitEpoch(host, world.closing);
      if linked {
        return Returned(());
      }
      var ensured := EnsureCurrentHardlinkedToTimestamp(host, world.closedFirst, world.wallClock, world.closing);
      if ensured.Raised? {
        return Raised(ensured.error);
      }
      LinkEvolves(d, ensured.value);
      CurrentIsNoDigitName();
      DecimalRoundTrip(ensured.value);
      HostChangeKeepsConsistency(old(dirs), workerOf, sticky, drift, receipts, lost, host, dirs[host], sticky, drift);
      assert CacheOf(host) == CacheMade(d, world) && dirs[host] == LinkedDir(d, cache, world);
      linked := CurrentIsHardlinkedToDigitEpoch(host, world.checking);
      r := if linked then Returned(()) else Raised(RuntimeError);
    }

    /**
     Unlink `current` once a digit epoch shares its inode, linking it first if need be. Returns the
     cached epoch path, if any, and the size of the closed segment.
     */
    method CloseCurrent(host: string, world: World) returns (r: Outcome<(Option<string>, nat)>)
      requires Valid() && workerOf(host) !in sticky && host in dirs && CURRENT in dirs[host].names
      modifies `dirs, `digitLinkCache
      ensures Valid() && OnlyHostEvolved(old(dirs), dirs, host)
      ensures host in dirs && dirs[host].data == old(dirs[host]).data
      ensures r.Returned? <==> Closes(old(dirs[host]), old(CacheOf(host)), world)
      ensures r.Returned? ==>
        && dirs == old(dirs)[host := ClosedDir(old(dirs[host]), old(CacheOf(host)), world.(existsRaises := false))]
        && r.value.1 == |old(dirs[host]).data[old(dirs[host]).names[CURRENT]]|
        && (r.value.0.Some? <==> EpochKnown(old(dirs[host]), old(CacheOf(host)), world))
        && (r.value.0.Some? ==>
              IsDigits(r.value.0.value) && Binds(dirs[host], r.value.0.value, old(dirs[host]).names[CURRENT]))
    {
      hide Consistent, OnlyHostEvolved, Evolves, SeesLink, LinkedDir, EpochKnown, Linked, ClosedDir, LinkSeen,
        WellFormed;
      HostIsWellFormed(dirs, workerOf, sticky, drift, receipts, lost, host);
      var seen := SeeOrMakeLink(host, world);
      if seen.Raised? {
        return Raised(seen.error);
      }
      CurrentHasData(old(dirs[host]), dirs[host]);
      var closedPath := if host in digitLinkCache then Some(digitLinkCache[host].path) else None;
      var closedBytes := |dirs[host].data[dirs[host].names[CURRENT]]|;
      if Unlink in world.checking {
        return Raised(IoError);
      }
      ghost var before := dirs;
      UnlinkCurrent(host);
      OnlyHostEvolvedTransitive(old(dirs), before, dirs, host);
      ClosedIsUnlinked(old(dirs[host]), old(CacheOf(host)), world);
      if closedPath.Some? {
        DigitNamesStay(before[host], dirs[host], closedPath.value);
      }
      return Returned((closedPath, closedBytes));
    }

    method UnlinkCurrent(host: string)
      requires Valid() && workerOf(host) !in sticky && host in dirs && Linked(dirs[host])
      modifies `dirs
      ensures Valid() && OnlyHostEvolved(old(dirs), dirs, host)
      ensures dirs == old(dirs)[host := old(dirs[host]).(names := old(dirs[host]).names - {CURRENT})]
    {
      hide Consistent, Evolves, WellFormed;
      HostIsWellFormed(dirs, workerOf, sticky, drift, receipts, lost, host);
      UnlinkEvolves(dirs[host]);
      HostChangeKeepsConsistency(dirs, workerOf, sticky, drift, receipts, lost, host,
                                 dirs[host].(names := dirs[host].names - {CURRENT}), sticky, drift);
      dirs := dirs[host := dirs[host].(names := dirs[host].names - {CURRENT})];
    }

    /**
     `open(current, "wb")` and write. An existing `current` is truncated and its inode overwritten;
     otherwise a new file is made. A write that raises leaves what has landed.
     */
    method WriteCurrent(host: string, payload: seq<Byte>, world: World) returns (written: bool)
      requires Valid() && workerOf(host) !in sticky && host in dirs
      modifies `dirs, `lost
      ensures Valid() && host in dirs
      ensures OnlyHostEvolved(Reopened(old(dirs), world, host, payload), dirs, host)
      ensures lost == old(lost) + Unreadable(Reopened(old(dirs), world, host, payload), receipts)
      ensures Reopens(old(dirs), world, host) ==> dirs == Reopened(old(dirs), world, host, payload)
      ensures written <==> !world.cannotOpen && !world.writeRaises
      ensures written ==>
        && CURRENT in dirs[host].names
        && var i := dirs[host].names[CURRENT];
        && (CURRENT in old(dirs[host]).names || i !in old(dirs[host]).names.Values)
        && OpenedFrom(old(dirs[host]), dirs[host], payload)
        && Durable(dirs[host], Receipt("", i, 0, payload))
    {
      hide Consistent;
      ReadableStays(dirs, workerOf, sticky, drift, receipts, lost);
      EvolvesReflexive(Reopened(dirs, world, host, payload), host);
      if world.cannotOpen {
        return false;
      }
      var bytes := Written(world, payload);
      HostIsWellFormed(dirs, workerOf, sticky, drift, receipts, lost, host);
      if CURRENT in dirs[host].names {
        OverwriteKeepsConsistency(dirs, workerOf, sticky, drift, receipts, lost, host, bytes);
        OverwriteEvolvesIff(dirs[host], bytes);
        var i := dirs[host].names[CURRENT];
        assert dirs[host].names[CURRENT := i] == dirs[host].names;
        assert Binds(Overwritten(dirs[host], bytes), CURRENT, i);
        dirs := dirs[host := Overwritten(dirs[host], bytes)];
        lost := lost + Unreadable(dirs, receipts);
      } else {
        var i := CreateCurrent(host, bytes);
        HostChangeKeepsConsistency(old(dirs), workerOf, sticky, drift, receipts, lost, host, dirs[host],
                                   sticky, drift);
      }
      return !world.writeRaises;
    }

    /**
     Write the `$` payload as `current` and bind it to a usable digit name, at or above its first sample
     second, or the wall clock when it has none. The inode is a fresh one unless `current` was there.
     */
    method OpenSegment(host: string, payload: seq<Byte>, world: World)
        returns (r: Outcome<int>, ghost segment: Directory)
      requires Valid() && workerOf(host) !in sticky && host in dirs
      modifies `dirs, `digitLinkCache, `receipts, `lost
      ensures Valid() && host in dirs
      ensures OnlyHostEvolved(Reopened(old(dirs), world, host, payload), dirs, host)
      ensures lost == old(lost) + Unreadable(Reopened(old(dirs), world, host, payload), old(receipts))
      ensures Reopens(old(dirs), world, host) ==>
        dirs[host].data == Reopened(old(dirs), world, host, payload)[host].data
      ensures !world.cannotOpen && !world.writeRaises ==> OpenedFrom(old(dirs[host]), segment, payload)
      ensures var named := Probe(segment, world.newFirst.GetOr(world.wallClock), 1, DIGIT_EPOCH_NAME_MAX_ATTEMPTS,
                                 world.naming);
        && (r.Returned? <==> !world.cannotOpen && !world.writeRaises && named.Returned?)
        && (r.Returned? ==> r == named)
      ensures r.Raised? ==> receipts == old(receipts)
      ensures r.Returned? ==>
        && r.value > 0 && r.value >= world.newFirst.GetOr(world.wallClock) && CURRENT in dirs[host].names
        && var i := dirs[host].names[CURRENT];
        && (CURRENT in old(dirs[host]).names || i !in old(dirs[host]).names.Values)
        && Binds(dirs[host], Decimal(r.value), i)
        && dirs[host].data == old(dirs[host]).data[i := payload]
        && receipts == old(receipts) + [Receipt(host, i, 0, payload)]
    {
      hide Consistent, OnlyHostEvolved, Evolves, WellFormed, Probe;
      var written := WriteCurrent(host, payload, world);
      segment := dirs[host];
      if !written {
        return Raised(IoError), segment;
      }
      ghost var struck := Reopened(old(dirs), world, host, payload);
      ghost var before := dirs;
      var i := dirs[host].names[CURRENT];
      var start := world.newFirst.GetOr(world.wallClock);
      HostIsWellFormed(dirs, workerOf, sticky, drift, receipts, lost, host);
      r := LinkCurrentToUniqueDigitEpoch(host, start, 1, world.naming);
      if r.Raised? {
        return;
      }
      LinkEvolves(before[host], r.value);
      HostChangeKeepsConsistency(before, workerOf, sticky, drift, receipts, lost, host, dirs[host], sticky, drift);
      OnlyHostEvolvedTransitive(struck, before, dirs, host);
      DurableKept(before[host], dirs[host], Receipt("", i, 0, payload));
      NewReceiptKeepsConsistency(dirs, workerOf, sticky, drift, receipts, lost, Receipt(host, i, 0, payload));
      receipts := receipts + [Receipt(host, i, 0, payload)];
    }

    /** Close the live segment if `exists` sees one; `None` when nothing was closed. */
    method CloseIfSeen(host: string, world: World) returns (r: Outcome<Option<(Option<string>, nat)>>)
      requires Valid() && workerOf(host) !in sticky && host in dirs
      modifies `dirs, `digitLinkCache
      ensures Valid() && OnlyHostEvolved(old(dirs), dirs, host) && host in dirs
      ensures world.existsRaises ==> r == Returned(None) && dirs == old(dirs)
      ensures r.Returned? <==>
        (CURRENT in old(dirs[host]).names && !world.existsRaises ==> Closes(old(dirs[host]), old(CacheOf(host)), world))
      ensures r.Returned? ==> dirs == old(dirs)[host := ClosedDir(old(dirs[host]), old(CacheOf(host)), world)]
      ensures r.Returned? ==> (r.value.Some? <==> CURRENT in old(dirs[host]).names && !world.existsRaises)
      ensures r.Returned? && CURRENT in dirs[host].names ==> world.existsRaises && dirs == old(dirs)
      ensures r.Returned? && r.value.Some? ==>
        && CURRENT in old(dirs[host]).names && dirs[host].data == old(dirs[host]).data
        && (r.value.value.0.Some? <==> EpochKnown(old(dirs[host]), old(CacheOf(host)), world))
        && old(dirs[host]).names[CURRENT] in old(dirs[host]).data
        && r.value.value.1 == |old(dirs[host]).data[old(dirs[host]).names[CURRENT]]|
        && (r.value.value.0.Some? ==>
              && IsDigits(r.value.value.0.value)
              && Binds(dirs[host], r.value.value.0.value, old(dirs[host]).names[CURRENT]))
    {
      hide Consistent, OnlyHostEvolved, Evolves, Closes, LinkedDir, EpochKnown, ClosedDir;
      SeenFileStays(HostDir(dirs, host), CacheOf(host), world);
      EvolvesReflexive(dirs, host);
      HostIsWellFormed(dirs, workerOf, sticky, drift, receipts, lost, host);
      LookAgain(HostDir(dirs, host), CacheOf(host), world);
      if world.existsRaises || CURRENT !in dirs[host].names {
        return Returned(None);
      }
      var closed := CloseCurrent(host, world);
      r := if closed.Raised? then Raised(closed.error) else Returned(Some(closed.value));
    }

    /**
     The `$` branch: close the live segment, if `exists` sees one, and open a new one. If `exists` misses
     it, the live segment is overwritten instead.
     */
    method Rotate(w: WorkerId, host: string, payload: seq<Byte>, world: World)
        returns (r: Outcome<Option<RotationRecord>>, ghost segment: Directory)
      requires Valid() && workerOf(host) == w
      modifies `dirs, `digitLinkCache, `receipts, `lost, `sticky
      ensures Valid()
      ensures OnlyHostEvolved(Struck(old(dirs), world, host, payload), dirs, host)
      ensures OnlyHostEvolved(old(dirs), dirs, host) <==> !Loses(old(dirs), world, host, payload)
      ensures lost == old(lost) + Unreadable(Struck(old(dirs), world, host, payload), old(receipts))
      ensures Truncates(old(dirs), world, host) ==>
        host in dirs && dirs[host].data == Struck(old(dirs), world, host, payload)[host].data
      ensures sticky == old(sticky) - {w}
      ensures Rotates(old(HostDir(dirs, host)), old(CacheOf(host)), world, payload, segment, r.Returned?)
      ensures r.Raised? ==> receipts == old(receipts)
      ensures r.Returned? ==>
        && (r.value.Some? <==> RecordsRotation(old(HostDir(dirs, host)), old(CacheOf(host)), world))
        && host in dirs && CURRENT in dirs[host].names
        && receipts == old(receipts) + [Receipt(host, dirs[host].names[CURRENT], 0, payload)]
        && dirs[host].names[CURRENT] in dirs[host].data && dirs[host].data[dirs[host].names[CURRENT]] == payload
        && (r.value.Some? ==>
              host in old(dirs) && RecordDescribes(r.value.value, host, old(dirs)[host], dirs[host], world))
    {
      hide Consistent, OnlyHostEvolved, Evolves, Struck, Reopened, Loses, Unreadable, RecordDescribes, Closes,
        LinkedDir, EpochKnown, Probe, ClosedDir, OpenedFrom, WellFormed;
      SeenFileStays(HostDir(dirs, host), CacheOf(host), world);
      segment := Directory(map[], map[]);
      ReleaseKeepsConsistency(dirs, workerOf, sticky, drift, receipts, lost, w);
      ReadableStays(dirs, workerOf, sticky, drift, receipts, lost);
      ReleaseStickyArchiveWriter(w);
      EvolvesReflexive(dirs, host);
      if host in dirs {
        HostIsWellFormed(dirs, workerOf, sticky, drift, receipts, lost, host);
      }
      ghost var d, cache := HostDir(dirs, host), CacheOf(host);
      var closed := CloseSegment(host, world);
      if closed.Raised? {
        NothingStruck(old(dirs), d, cache, world, host, payload);
        LossShows(old(dirs), world, host, payload, dirs);
        return Raised(closed.error), segment;
      }
      ghost var before := dirs;
      BeforeOpening(old(dirs), world, host, payload, before);
      ReadableStays(dirs, workerOf, sticky, drift, receipts, lost);
      var epoch;
      epoch, segment := OpenSegment(host, payload, world);
      if !Truncates(old(dirs), world, host) {
        OnlyHostEvolvedTransitive(old(dirs), before, dirs, host);
      }
      LossShows(old(dirs), world, host, payload, dirs);
      if epoch.Raised? {
        return Raised(epoch.error), segment;
      }
      if closed.value.None? || closed.value.value.0.None? {
        return Returned(None), segment;
      }
      var path, size := closed.value.value.0.value, closed.value.value.1;
      RecordIsRight(host, d, before, dirs, world, path, epoch.value, payload);
      r := Returned(Some(RotationRecord(host, path, world.wallClock, ParseDecimal(path), size, epoch.value)));
    }

    /** The rotation up to the write: make the directory, take the lock, and close what `exists` sees. */
    method CloseSegment(host: string, world: World) returns (r: Outcome<Option<(Option<string>, nat)>>)
      requires Valid() && workerOf(host) !in sticky
      modifies `dirs, `digitLinkCache
      ensures Valid() && OnlyHostEvolved(old(dirs), dirs, host)
      ensures r.Returned? <==> ComesToWriting(old(HostDir(dirs, host)), old(CacheOf(host)), world)
      ensures r.Returned? ==>
        && host in dirs && dirs[host] == ClosedDir(old(HostDir(dirs, host)), old(CacheOf(host)), world)
        && (CURRENT in dirs[host].names ==> dirs == old(dirs) && world.existsRaises)
        && (host in old(dirs) && CURRENT in old(dirs[host]).names && world.existsRaises ==> dirs == old(dirs))
        && (r.value.Some? <==> CURRENT in old(HostDir(dirs, host)).names && !world.existsRaises)
      ensures r.Returned? && r.value.Some? ==>
        && var d := old(HostDir(dirs, host));
        && host in old(dirs) && dirs[host].data == d.data && CURRENT !in dirs[host].names
        && d.names[CURRENT] in d.data && r.value.value.1 == |d.data[d.names[CURRENT]]|
        && (r.value.value.0.Some? <==> EpochKnown(d, old(CacheOf(host)), world))
        && (r.value.value.0.Some? ==>
              IsDigits(r.value.value.0.value) && Binds(dirs[host], r.value.value.0.value, d.names[CURRENT]))
    {
      hide Consistent, OnlyHostEvolved, Evolves, Closes, LinkedDir, EpochKnown, ClosedDir;
      SeenFileStays(HostDir(dirs, host), CacheOf(host), world);
      EvolvesReflexive(dirs, host);
      if world.cannotMakeDirs || world.cannotLock {
        return Raised(IoError);
      }
      MakeHost(host);
      ghost var made := dirs;
      r := CloseIfSeen(host, world);
      OnlyHostEvolvedTransitive(old(dirs), made, dirs, host);
    }

    // ---- appending a payload ----------------------------------------------

    /**
     Append one monitor payload on worker `w`, to which its host is affine. Other hosts are untouched.
     Every payload appended so far stays durable, whatever is raised, but for those that a `$` payload
     truncates; its directory evolves exactly when nothing is lost. A `$` payload starts at offset 0; a
     sample payload lands at the end of `current` and is reported at the kept size, which is the true
     offset exactly when the hold is exact.
     */
    method AppendMonitorPayload(w: WorkerId, payload: seq<Byte>, world: World)
        returns (r: Outcome<AppendResult>, ghost segment: Directory)
      requires Valid()
      requires hostOf(payload).Some? ==> workerOf(hostOf(payload).value) == w
      modifies `dirs, `digitLinkCache, `sticky, `drift, `receipts, `lost
      ensures Valid()
      ensures !IsPayload(payload) ==> r == Raised(ValueError) && sticky == old(sticky)
      ensures Stepped(Request(w, payload, world), old(dirs), dirs)
      ensures IsPayload(payload) ==>
        (OnlyHostEvolved(old(dirs), dirs, hostOf(payload).value) <==> !LosesBy(old(dirs), world, payload))
      ensures lost == old(lost) + Unreadable(StruckBy(old(dirs), world, payload), old(receipts))
      ensures !LosesBy(old(dirs), world, payload) ==> lost == old(lost)
      ensures IsRotation(payload) && Truncates(old(dirs), world, hostOf(payload).value) ==>
        && hostOf(payload).value in dirs
        && dirs[hostOf(payload).value].data == StruckBy(old(dirs), world, payload)[hostOf(payload).value].data
      ensures sticky - {w} == old(sticky) - {w} && drift - {w} == old(drift) - {w}
      ensures IsRotation(payload) ==>
        var host := hostOf(payload).value;
        && Rotates(old(HostDir(dirs, host)), old(CacheOf(host)), world, payload, segment, r.Returned?)
        && (r.Returned? ==>
              (r.value.rotation.Some? <==> RecordsRotation(old(HostDir(dirs, host)), old(CacheOf(host)), world)))
      ensures var h := HoldFor(old(dirs), old(sticky), world, w, payload);
        && (old(SizesExact()) && ExactHold(h) ==> SizesExact())
        && SizeCarried(h, w, old(sticky), old(drift), sticky, drift)
        && (IsSample(payload) ==> (r.Returned? <==> !h.NoWriter? && !world.flockTimesOut && !world.writeRaises))
        && (r.Returned? ==>
              && hostOf(payload) == Some(r.value.host)
              && (w in sticky <==> IsSample(payload)) && (IsSample(payload) ==> r.value.rotation == None)
              && r.value.host in dirs && |receipts| > 0 && InCurrent(dirs[r.value.host], receipts[|receipts| - 1])
              && CurrentLength(dirs, r.value.host) == FileLength(h) + |payload|
              && (r.value.rotation.Some? ==>
                    r.value.host in old(dirs)
                    && RecordDescribes(r.value.rotation.value, r.value.host, old(dirs)[r.value.host],
                      dirs[r.value.host], world)))
        && Filed(r, h, old(receipts), receipts, payload)
    {
      hide Consistent, OnlyHostEvolved, Exact, CurrentLength, HoldOf, Agrees, Struck, Loses, Unreadable, Truncates,
        RecordDescribes, CacheValid, NoDrift, SizeCarried, Filed, InCurrent, Rotates, RecordsRotation;
      segment := Directory(map[], map[]);
      if payload == [] || hostOf(payload).None? {
        ReadableStays(dirs, workerOf, sticky, drift, receipts, lost);
        NothingFiled(w, sticky, drift, receipts, payload);
        return Raised(ValueError), segment;
      }
      if payload[0] == DOLLAR {
        r, segment := AppendSegment(w, hostOf(payload).value, payload, world);
      } else {
        r := AppendSample(w, hostOf(payload).value, payload, world);
      }
    }

    method AppendSegment(w: WorkerId, host: string, payload: seq<Byte>, world: World)
        returns (r: Outcome<AppendResult>, ghost segment: Directory)
      requires Valid() && hostOf(payload) == Some(host) && workerOf(host) == w
      modifies `dirs, `digitLinkCache, `sticky, `receipts, `lost
      ensures Valid() && OnlyHostEvolved(Struck(old(dirs), world, host, payload), dirs, host)
      ensures OnlyHostEvolved(old(dirs), dirs, host) <==> !Loses(old(dirs), world, host, payload)
      ensures lost == old(lost) + Unreadable(Struck(old(dirs), world, host, payload), old(receipts))
      ensures !Loses(old(dirs), world, host, payload) ==> lost == old(lost)
      ensures Truncates(old(dirs), world, host) ==>
        host in dirs && dirs[host].data == Struck(old(dirs), world, host, payload)[host].data
      ensures sticky == old(sticky) - {w}
      ensures old(SizesExact()) ==> SizesExact()
      ensures SizeCarried(NewFile, w, old(sticky), old(drift), sticky, drift)
      ensures Rotates(old(HostDir(dirs, host)), old(CacheOf(host)), world, payload, segment, r.Returned?)
      ensures r.Returned? ==>
        && (r.value.rotation.Some? <==> RecordsRotation(old(HostDir(dirs, host)), old(CacheOf(host)), world))
        && r.value.host == host && host in dirs && |receipts| > 0 && InCurrent(dirs[host], receipts[|receipts| - 1])
        && CurrentLength(dirs, host) == |payload|
        && (r.value.rotation.Some? ==>
              host in old(dirs) && RecordDescribes(r.value.rotation.value, host, old(dirs)[host], dirs[host], world))
      ensures Filed(r, NewFile, old(receipts), receipts, payload)
    {
      hide Consistent, OnlyHostEvolved, Exact, CurrentLength, Struck, Loses, Unreadable, Truncates, RecordDescribes,
        CacheValid, Rotates, RecordsRotation;
      if !Loses(dirs, world, host, payload) {
        HarmlessOverwrite(dirs, workerOf, sticky, drift, receipts, lost, world, host, payload);
      }
      var rotated;
      rotated, segment := Rotate(w, host, payload, world);
      assert sticky - {w} == old(sticky) - {w};
      if Exact(old(sticky), old(drift)) {
        ExactKept(old(sticky), old(drift), sticky, drift, w);
      }
      if rotated.Raised? {
        return Raised(rotated.error), segment;
      }
      LengthOfCurrent(dirs, host, payload);
      return Returned(AppendResult(host, 0, |payload|, rotated.value)), segment;
    }

    method AppendSample(w: WorkerId, host: string, payload: seq<Byte>, world: World) returns (r: Outcome<AppendResult>)
      requires Valid() && hostOf(payload) == Some(host) && workerOf(host) == w
      modifies `dirs, `sticky, `drift, `receipts
      ensures Valid() && OnlyHostEvolved(old(dirs), dirs, host)
      ensures sticky - {w} == old(sticky) - {w} && drift - {w} == old(drift) - {w}
      ensures lost == old(lost) + Unreadable(old(dirs), old(receipts))
      ensures var h := HoldOf(old(dirs), old(sticky), world, w, host);
        && (old(SizesExact()) && ExactHold(h) ==> SizesExact())
        && SizeCarried(h, w, old(sticky), old(drift), sticky, drift)
        && (r.Returned? <==> !h.NoWriter? && !world.flockTimesOut && !world.writeRaises)
        && (r.Returned? ==>
              && r.value.host == host && r.value.rotation == None && w in sticky
              && host in dirs && |receipts| > 0 && InCurrent(dirs[host], receipts[|receipts| - 1])
              && CurrentLength(dirs, host) == FileLength(h) + |payload|)
        && Filed(r, h, old(receipts), receipts, payload)
    {
      hide Consistent, OnlyHostEvolved, Exact, CurrentLength, HoldOf, Agrees, CacheValid, NoDrift, Unreadable,
        SizeCarried, InCurrent;
      ReadableStays(dirs, workerOf, sticky, drift, receipts, lost);
      var appended := StickyAppendSampleBytes(w, host, payload, world);
      if appended.Raised? {
        return Raised(appended.error);
      }
      return Returned(AppendResult(host, appended.value, |payload|, None));
    }

    /** Known payloads, as opposed to those that raise `ValueError`. */
    predicate IsPayload(payload: seq<Byte>) {
      payload != [] && hostOf(payload).Some?
    }

    /** Sample payloads of a known host, as opposed to `$` payloads. */
    predicate IsSample(payload: seq<Byte>) {
      IsPayload(payload) && payload[0] != DOLLAR
    }

    predicate IsRotation(payload: seq<Byte>) {
      IsPayload(payload) && payload[0] == DOLLAR
    }

    /** The writer an append comes to; a `$` payload is written to a new or emptied file. */
    function HoldFor(dirs: map<string, Directory>, sticky: map<WorkerId, Sticky>, world: World, w: WorkerId,
        payload: seq<Byte>): Hold {
      if IsSample(payload) then HoldOf(dirs, sticky, world, w, hostOf(payload).value)
      else if IsPayload(payload) then NewFile
      else NoWriter
    }

    /** The directories once a `$` payload has truncated the `current` it did not see, if it does. */
    function StruckBy(dirs: map<string, Directory>, world: World, payload: seq<Byte>): map<string, Directory> {
      if IsRotation(payload) then Struck(dirs, world, hostOf(payload).value, payload) else dirs
    }

    predicate LosesBy(dirs: map<string, Directory>, world: World, payload: seq<Byte>) {
      IsRotation(payload) && Loses(dirs, world, hostOf(payload).value, payload)
    }

    /** The range that was returned for payload `p` holds it. */
    ghost predicate ReadsBack(r: AppendResult, receipt: Receipt, p: seq<Byte>)
      reads this
    {
      && receipt.host == r.host && r.length == |p| && r.host in dirs
      && var d := dirs[r.host];
      && Kept(d, receipt.inode) && receipt.inode in d.data
      && r.offset + r.length <= |d.data[receipt.inode]|
      && d.data[receipt.inode][r.offset..r.offset + r.length] == p
    }

    /** One append takes the directories from `before` to `after`, but for what it truncates. */
    ghost predicate Stepped(p: Request, before: map<string, Directory>, after: map<string, Directory>) {
      if IsPayload(p.payload)
      then OnlyHostEvolved(StruckBy(before, p.world, p.payload), after, hostOf(p.payload).value)
      else after == before
    }

    ghost predicate Traced(requests: seq<Request>, trace: seq<map<string, Directory>>) {
      && 1 <= |trace| <= |requests| + 1
      && forall j | 0 <= j < |trace| - 1 :: Stepped(requests[j], trace[j], trace[j + 1])
    }

    /** The `j`-th append truncates the range of receipt `k`, which was filed before it. */
    ghost predicate Strikes(requests: seq<Request>, trace: seq<map<string, Directory>>, receipts: seq<Receipt>,
                            start: nat, results: seq<Outcome<AppendResult>>, j: nat, k: nat)
      requires |results| < |trace| && |results| <= |requests|
    {
      && j < |results| && k < |receipts| && k < Place(start, results[..j])
      && !ReceiptHolds(StruckBy(trace[j], requests[j].world, requests[j].payload), receipts[k])
    }

    /** Lost are the receipts lost before and those that a later append truncates. */
    ghost predicate Accounted(requests: seq<Request>, trace: seq<map<string, Directory>>, receipts: seq<Receipt>,
                              start: nat, results: seq<Outcome<AppendResult>>, lost0: set<nat>, lost: set<nat>)
      requires |results| < |trace| && |results| <= |requests|
    {
      forall k: nat | k < |receipts| ::
        k in lost <==> k in lost0 || exists j :: Strikes(requests, trace, receipts, start, results, j, k)
    }

    /**
     Any sequence of payloads, each on its host's worker and each free to raise anywhere.

     No digit name of any host is removed or rebound. A payload appended before or during the run is
     durable at its end unless a later `$` append truncates its range, and as long as no append loses
     anything all of them are, and every directory evolves. The offset of a returned result is right
     exactly when its hold was exact, and then the returned range still reads back at the end, if it is
     not lost. The hold of a reused writer is exact exactly when the last opening of that worker's writer
     was, or, without one in the run, when its kept size was exact to begin with.
     */
    method AppendAll(requests: seq<Request>)
        returns (results: seq<Outcome<AppendResult>>, ghost holds: seq<Hold>, ghost trace: seq<map<string, Directory>>)
      requires Valid()
      requires forall p | p in requests :: hostOf(p.payload).Some? ==> workerOf(hostOf(p.payload).value) == p.worker
      modifies `dirs, `digitLinkCache, `sticky, `drift, `receipts, `lost
      ensures Valid()
      ensures |results| == |holds| == |requests| && |trace| == |requests| + 1
      ensures trace[0] == old(dirs) && trace[|requests|] == dirs && Traced(requests, trace)
      ensures AllEpochsStay(old(dirs), dirs)
      ensures (forall j | 0 <= j < |requests| :: !LosesBy(trace[j], requests[j].world, requests[j].payload)) ==>
        AllEvolved(old(dirs), dirs) && lost == old(lost)
      ensures old(receipts) <= receipts
      ensures forall i | 0 <= i < |receipts| && i !in lost :: ReceiptHolds(dirs, receipts[i])
      ensures Accounted(requests, trace, receipts, |old(receipts)|, results, old(lost), lost)
      ensures AllReported(results, holds, |old(receipts)|, receipts, requests)
      ensures forall i | 0 <= i < |requests| && results[i].Returned? && ExactHold(holds[i]) ::
        var k := Place(|old(receipts)|, results[..i]);
        k !in lost ==> ReadsBack(results[i].value, receipts[k], requests[i].payload)
      ensures ReusedAsOpened(requests, holds, old(drift))
      ensures old(SizesExact()) && OpeningsExact(holds) ==> SizesExact() && HoldsExact(holds)
    {
      hide Consistent, OnlyHostEvolved, Exact, HoldOf, ExactHold, OpeningsExact, HoldsExact, Filed, CurrentLength,
        RecordDescribes, Stepped, Traced, Accounted, StruckBy, LosesBy, Sized, ReusedAsOpened, SizeCarried, Place,
        AllReported, Unreadable, AllEvolved, AllEpochsStay, Rotates, RecordsRotation, InCurrent,
        HostDir, Truncates, LosesBy, CacheValid, Reported, LastOpeningExact;
      ghost var start, lost0, drift0 := |receipts|, lost, drift;
      StartOfRun(requests);
      LostArePlaced();
      results, holds, trace := [], [], [dirs];
      for n := 0 to |requests|
        invariant Valid() && old(receipts) <= receipts && |receipts| == Place(start, results)
        invariant forall i | i in lost0 :: i < start
        invariant |results| == |holds| == n && |trace| == n + 1 && trace[0] == old(dirs) && trace[n] == dirs
        invariant Traced(requests, trace) && AllEpochsStay(old(dirs), dirs)
        invariant (forall j | 0 <= j < n :: !LosesBy(trace[j], requests[j].world, requests[j].payload)) ==>
          AllEvolved(old(dirs), dirs) && lost == old(lost)
        invariant Accounted(requests, trace, receipts, start, results, lost0, lost)
        invariant AllReported(results, holds, start, receipts, requests)
        invariant Sized(requests, holds, drift0, sticky, drift) && ReusedAsOpened(requests, holds, drift0)
        invariant old(SizesExact()) && OpeningsExact(holds) ==> SizesExact() && HoldsExact(holds)
      {
        ghost var before, receipts1, lost1, sticky1, drift1 := dirs, receipts, lost, sticky, drift;
        var p := requests[n];
        assert p in requests;
        ghost var h := HoldFor(dirs, sticky, p.world, p.worker, p.payload);
        if SizesExact() {
          HoldOfExact(p.world, p.worker, p.payload);
        }
        LostArePlaced();
        ghost var segment;
        var r;
        r, segment := AppendMonitorPayload(p.worker, p.payload, p.world);
        EpochsStayStep(old(dirs), p, before, dirs);
        if AllEvolved(old(dirs), before) && !LosesBy(before, p.world, p.payload) {
          EvolvedStep(old(dirs), p, before, dirs);
        }
        OneMoreReported(results, holds, start, receipts1, requests, r, h, receipts);
        OneMoreAccounted(requests, trace, receipts1, receipts, start, results, r, lost0, lost1, lost, dirs);
        OneMoreTraced(requests, trace, dirs);
        OneMoreSize(requests, holds, h, drift0, sticky1, drift1, sticky, drift);
        OneMoreHold(holds, h);
        results, holds, trace := results + [r], holds + [h], trace + [dirs];
      }
      assert ReusedAsOpened(requests, holds, drift0);
      StandingReceiptsHold();
      forall i | 0 <= i < |requests| && results[i].Returned? && ExactHold(holds[i])
        ensures var k := Place(start, results[..i]);
          k < |receipts| && (k !in lost ==> ReadsBack(results[i].value, receipts[k], requests[i].payload))
      {
        ReportedReadsBack(results, holds, start, requests, i);
      }
    }

    lemma StandingReceiptsHold()
      requires Valid()
      ensures forall i | 0 <= i < |receipts| && i !in lost :: ReceiptHolds(dirs, receipts[i])
    {
    }

    lemma ReportedReadsBack(results: seq<Outcome<AppendResult>>, holds: seq<Hold>, start: nat, requests: seq<Request>,
                            i: nat)
      requires Valid() && AllReported(results, holds, start, receipts, requests)
      requires i < |results| && results[i].Returned? && ExactHold(holds[i])
      ensures var k := Place(start, results[..i]);
        k < |receipts| && (k !in lost ==> ReadsBack(results[i].value, receipts[k], requests[i].payload))
    {
      hide Place;
      StandingReceiptsHold();
      var k := Place(start, results[..i]);
      assert Reported(results[i].value, holds[i], receipts[k], requests[i].payload);
      assert k !in lost ==> ReceiptHolds(dirs, receipts[k]);
    }

    /** With exact sizes a kept writer is exact; what is opened is so when `fstat` helps. */
    lemma HoldOfExact(world: World, w: WorkerId, payload: seq<Byte>)
      requires Valid() && SizesExact()
      ensures var h := HoldFor(dirs, sticky, world, w, payload); !h.Opened? ==> ExactHold(h)
    {
      if w in sticky {
        KeptWriterAgrees(dirs, workerOf, sticky, drift, receipts, lost, w);
      }
    }

    lemma StartOfRun(requests: seq<Request>)
      requires Valid()
      ensures Traced(requests, [dirs]) && AllEpochsStay(dirs, dirs) && AllEvolved(dirs, dirs)
      ensures Place(|receipts|, []) == |receipts| && AllReported([], [], |receipts|, receipts, requests)
      ensures Accounted(requests, [dirs], receipts, |receipts|, [], lost, lost)
      ensures Sized(requests, [], drift, sticky, drift) && ReusedAsOpened(requests, [], drift)
      ensures HoldsExact([]) && OpeningsExact([])
    {
    }

    lemma OneMoreTraced(requests: seq<Request>, trace: seq<map<string, Directory>>, after: map<string, Directory>)
      requires Traced(requests, trace) && |trace| <= |requests|
      requires Stepped(requests[|trace| - 1], trace[|trace| - 1], after)
      ensures Traced(requests, trace + [after])
    {
      hide Stepped;
      var all := trace + [after];
      forall j | 0 <= j < |all| - 1 ensures Stepped(requests[j], all[j], all[j + 1]) {
      }
    }

    lemma OneMoreAccounted(requests: seq<Request>, trace: seq<map<string, Directory>>, receipts1: seq<Receipt>,
                           receipts2: seq<Receipt>, start: nat, results: seq<Outcome<AppendResult>>,
                           r: Outcome<AppendResult>, lost0: set<nat>, lost1: set<nat>, lost2: set<nat>,
                           after: map<string, Directory>)
      requires |trace| == |results| + 1 && |results| < |requests|
      requires Accounted(requests, trace, receipts1, start, results, lost0, lost1)
      requires receipts1 <= receipts2 && |receipts1| == Place(start, results)
      requires |receipts2| == Place(start, results + [r])
      requires (forall i | i in lost0 :: i < start) && forall i | i in lost1 :: i < |receipts1|
      requires var p := requests[|results|];
        lost2 == lost1 + Unreadable(StruckBy(trace[|results|], p.world, p.payload), receipts1)
      ensures Accounted(requests, trace + [after], receipts2, start, results + [r], lost0, lost2)
    {
      hide StruckBy, ReceiptHolds;
      var n, all, steps := |results|, results + [r], trace + [after];
      PlaceSnoc(start, results, r);
      forall k: nat | k < |receipts2|
        ensures k in lost2 <==>
          k in lost0 || exists j :: Strikes(requests, steps, receipts2, start, all, j, k)
      {
        forall j: nat | j < n ensures all[..j] == results[..j] && steps[j] == trace[j] {
        }
        assert all[..n] == results && steps[n] == trace[n];
        if k < |receipts1| {
          assert receipts2[k] == receipts1[k];
          forall j: nat | j < n
            ensures Strikes(requests, steps, receipts2, start, all, j, k) <==>
              Strikes(requests, trace, receipts1, start, results, j, k)
          {
            assert all[..j] == results[..j];
          }
          assert Strikes(requests, steps, receipts2, start, all, n, k) <==>
            k in Unreadable(StruckBy(trace[n], requests[n].world, requests[n].payload), receipts1);
        } else {
          forall j: nat | j <= n ensures !Strikes(requests, steps, receipts2, start, all, j, k) {
            PlacesGrow(start, results, j);
          }
        }
      }
    }

    lemma EpochsStayStep(a: map<string, Directory>, p: Request, b: map<string, Directory>, c: map<string, Directory>)
      requires AllEpochsStay(a, b) && Stepped(p, b, c)
      ensures AllEpochsStay(a, c)
    {
      if IsPayload(p.payload) {
        var host := hostOf(p.payload).value;
        if host in b && CURRENT in b[host].names {
          OverwriteKeepsEpochs(b[host], Written(p.world, p.payload));
        }
        forall h | h in a ensures h in c && EpochsStay(a[h], c[h]) {
          if h != host {
            assert h in StruckBy(b, p.world, p.payload) - {host} && h in c - {host};
            assert (StruckBy(b, p.world, p.payload) - {host})[h] == (c - {host})[h];
          }
        }
      }
    }

    lemma EvolvedStep(a: map<string, Directory>, p: Request, b: map<string, Directory>, c: map<string, Directory>)
      requires AllEvolved(a, b) && Stepped(p, b, c)
      requires IsPayload(p.payload) ==> OnlyHostEvolved(b, c, hostOf(p.payload).value)
      ensures AllEvolved(a, c)
    {
      hide StruckBy, OnlyHostEvolved;
      if IsPayload(p.payload) {
        AllEvolvedStep(a, b, c, hostOf(p.payload).value);
      }
    }

    lemma LostArePlaced()
      requires Valid()
      ensures forall i | i in lost :: i < |receipts|
    {
    }
  }

  lemma LengthOfCurrent(dirs: map<string, Directory>, host: string, payload: seq<Byte>)
    requires host in dirs && CURRENT in dirs[host].names && dirs[host].names[CURRENT] in dirs[host].data
    requires dirs[host].data[dirs[host].names[CURRENT]] == payload
    ensures CurrentLength(dirs, host) == |payload|
  {
  }

  ghost predicate AllEvolved(dirs: map<string, Directory>, dirs': map<string, Directory>) {
    forall h | h in dirs :: h in dirs' && Evolves(dirs[h], dirs'[h])
  }

  /** No digit name of any host is removed or rebound. */
  ghost predicate AllEpochsStay(dirs: map<string, Directory>, dirs': map<string, Directory>) {
    forall h | h in dirs :: h in dirs' && EpochsStay(dirs[h], dirs'[h])
  }

  lemma AllEvolvedStep(a: map<string, Directory>, b: map<string, Directory>, c: map<string, Directory>, host: string)
    requires AllEvolved(a, b) && OnlyHostEvolved(b, c, host)
    ensures AllEvolved(a, c)
  {
    forall h | h in a ensures h in c && Evolves(a[h], c[h]) {
      if h == host {
        EvolvesTransitive(a[h], b[h], c[h]);
      } else {
        assert h in b - {host} && (b - {host})[h] == (c - {host})[h];
      }
    }
  }

  const QUIET := World(false, false, false, false, false, false, false, false, 0, 0, None, None, {}, {}, {})

  lemma FirstHold(w: WorkerId, host: string)
    ensures HoldOf(map[], map[], QUIET, w, host) == Opened(true, 0)
  {
  }

  lemma ReopenedHold(dirs: map<string, Directory>, sticky: map<WorkerId, Sticky>, world: World, w: WorkerId,
      host: string)
    requires world == QUIET.(stale := true, cannotStat := true)
    ensures HoldOf(dirs, sticky, world, w, host) == Opened(false, CurrentLength(dirs, host))
  {
  }

  /**
   A run to a wrong offset: after a first sample payload the kept writer goes stale, and `fstat` raises
   when it is reopened. The second payload lands behind the first, but is reported at offset 0, where
   the returned range holds bytes of the first.
   */
  method FailedFstatMisreads(hostOf: seq<Byte> -> Option<string>, workerOf: string -> WorkerId,
                             first: seq<Byte>, second: seq<Byte>)
      returns (archive: Archive, r: Outcome<AppendResult>)
    requires first != [] && second != [] && first[0] != DOLLAR && second[0] != DOLLAR
    requires hostOf(first).Some? && hostOf(second) == hostOf(first)
    ensures archive.Valid() && fresh(archive)
    ensures r == Returned(AppendResult(hostOf(first).value, 0, |second|, None))
    ensures |archive.receipts| == 2 && archive.receipts[1].payload == second
    ensures archive.receipts[1].offset == |first| && r.value.offset != archive.receipts[1].offset
  {
    hide Consistent, OnlyHostEvolved, Exact, Evolves, CurrentLength, HoldOf, RecordDescribes, CanOpen;
    var host := hostOf(first).value;
    var written;
    archive, written := FirstSample(hostOf, workerOf, first);
    var reopened := QUIET.(stale := true, cannotStat := true);
    ReopenedHold(archive.dirs, archive.sticky, reopened, workerOf(host), host);
    ghost var segment;
    r, segment := archive.AppendMonitorPayload(workerOf(host), second, reopened);
  }

  /** The first sample payload of a new archive. */
  method FirstSample(hostOf: seq<Byte> -> Option<string>, workerOf: string -> WorkerId, first: seq<Byte>)
      returns (archive: Archive, r: Outcome<AppendResult>)
    requires first != [] && first[0] != DOLLAR && hostOf(first).Some?
    ensures archive.Valid() && fresh(archive) && archive.hostOf == hostOf && archive.workerOf == workerOf
    ensures var host := hostOf(first).value;
      && r == Returned(AppendResult(host, 0, |first|, None))
      && host in archive.dirs && WellFormed(archive.dirs[host]) && archive.lost == {}
      && |archive.receipts| == 1 && InCurrent(archive.dirs[host], archive.receipts[0])
      && archive.receipts[0] == Receipt(host, archive.receipts[0].inode, 0, first)
      && ReceiptHolds(archive.dirs, archive.receipts[0])
      && CurrentLength(archive.dirs, host) == |first|
  {
    hide Consistent, OnlyHostEvolved, Exact, Evolves, CurrentLength, HoldOf, RecordDescribes, CanOpen, Struck,
      Truncates, Loses, Unreadable, ReceiptHolds, InCurrent, WellFormed, SizeCarried;
    var host := hostOf(first).value;
    archive := new Archive(hostOf, workerOf);
    FirstHold(workerOf(host), host);
    ghost var segment;
    r, segment := archive.AppendMonitorPayload(workerOf(host), first, QUIET);
    archive.StandingReceiptsHold();
    HostIsWellFormed(archive.dirs, workerOf, archive.sticky, archive.drift, archive.receipts, archive.lost, host);
  }

  /** A payload in `current` that the truncated file no longer holds. */
  lemma StruckInCurrent(dirs: map<string, Directory>, world: World, host: string, payload: seq<Byte>, r: Receipt,
                        after: map<string, Directory>)
    requires ReceiptHolds(dirs, r) && r.host == host && host in dirs && WellFormed(dirs[host])
    requires InCurrent(dirs[host], r) && world == QUIET.(existsRaises := true)
    requires r.offset == 0 && r.payload != [] && payload != [] && r.payload[0] != payload[0]
    requires Truncates(dirs, world, host) ==>
      host in after && after[host].data == Struck(dirs, world, host, payload)[host].data
    ensures Truncates(dirs, world, host)
    ensures !ReceiptHolds(Struck(dirs, world, host, payload), r) && !ReceiptHolds(after, r)
  {
    StruckReceiptIff(dirs, world, host, payload, r);
  }

  lemma UnreadableAt(dirs: map<string, Directory>, receipts: seq<Receipt>, i: nat)
    requires i < |receipts| && !ReceiptHolds(dirs, receipts[i])
    ensures i in Unreadable(dirs, receipts)
  {
  }

  /**
   A run that loses an archived payload: the append of `first` has returned, then `exists` misses
   `current` and the `$` payload `second` truncates it. Whether or not that append returns, `first` can
   no longer be read back.
   */
  method FailedExistsLosesPayload(hostOf: seq<Byte> -> Option<string>, workerOf: string -> WorkerId,
                                  first: seq<Byte>, second: seq<Byte>)
      returns (archive: Archive, r: Outcome<AppendResult>)
    requires first != [] && second != [] && first[0] != DOLLAR && second[0] == DOLLAR
    requires hostOf(first).Some? && hostOf(second) == hostOf(first)
    ensures archive.Valid() && fresh(archive)
    ensures r == Returned(AppendResult(hostOf(first).value, 0, |first|, None))
    ensures |archive.receipts| >= 1 && archive.receipts[0].payload == first && archive.receipts[0].offset == 0
    ensures 0 in archive.lost && !ReceiptHolds(archive.dirs, archive.receipts[0])
  {
    hide Consistent, OnlyHostEvolved, Exact, Evolves, CurrentLength, HoldOf, RecordDescribes, CanOpen, Struck,
      Truncates, Loses, Unreadable, ReceiptHolds, InCurrent, WellFormed, SizeCarried, Filed;
    var host, w := hostOf(first).value, workerOf(hostOf(first).value);
    archive, r := FirstSample(hostOf, workerOf, first);
    ghost var before, sticky, receipt := archive.dirs, archive.sticky, archive.receipts[0];
    assert archive.receipts == [receipt];
    var world := QUIET.(existsRaises := true);
    ghost var segment;
    var again;
    again, segment := archive.AppendMonitorPayload(w, second, world);
    StruckInCurrent(before, world, host, second, receipt, archive.dirs);
    UnreadableAt(Struck(before, world, host, second), [receipt], 0);
    FiledBehind(again, archive.HoldFor(before, sticky, world, w, second), [receipt], archive.receipts, second);
  }

  lemma FiledBehind(r: Outcome<AppendResult>, h: Hold, before: seq<Receipt>, receipts: seq<Receipt>, p: seq<Byte>)
    requires Filed(r, h, before, receipts, p)
    ensures before <= receipts && |receipts| == |before| + if r.Returned? then 1 else 0
    ensures r.Returned? ==> receipts[|before|].payload == p && receipts[|before|].host == r.value.host
  {
  }
}
