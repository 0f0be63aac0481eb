/**
 A per-host archive directory: the live file `current` and its digit-named epochs.

 A directory maps names to inodes and inodes to bytes. An inode whose last name is gone may be reused,
 so the bytes of a payload survive only as long as some archive name keeps their inode.
 */
module EpochDirectory {
  import opened Wrappers
  import opened DigitNames

  type Byte = bv8
  type Inode = nat

  const CURRENT := "current"
  const DIGIT_EPOCH_NAME_MAX_ATTEMPTS: nat := 10_000

  datatype Directory = Directory(names: map<string, Inode>, data: map<Inode, seq<Byte>>)

  /** Where one appended payload went. */
  datatype Receipt = Receipt(host: string, inode: Inode, offset: nat, payload: seq<Byte>)

  predicate WellFormed(d: Directory) {
    forall n | n in d.names :: d.names[n] in d.data
  }

  predicate Binds(d: Directory, name: string, i: Inode) {
    name in d.names && d.names[name] == i
  }

  predicate IsArchiveName(name: string) {
    name == CURRENT || IsDigits(name)
  }

  /** Inode `i` is reachable under `current` or a digit epoch. */
  ghost predicate Kept(d: Directory, i: Inode) {
    exists n :: Binds(d, n, i) && IsArchiveName(n)
  }

  /** `current` shares its inode with a digit epoch: what a plain directory scan answers. */
  ghost predicate Linked(d: Directory) {
    CURRENT in d.names && exists n :: Binds(d, n, d.names[CURRENT]) && IsDigits(n)
  }

  /** Digit epochs stay bound as they are; no kept inode is dropped and its bytes are only appended to. */
  ghost predicate Evolves(d: Directory, d': Directory) {
    && (forall n | n in d.names && IsDigits(n) :: Binds(d', n, d.names[n]))
    && (forall i | Kept(d, i) :: Kept(d', i) && (i in d.data ==> i in d'.data && d.data[i] <= d'.data[i]))
  }

  /** The payload of `r` is still a contiguous range of an inode that an archive name reaches. */
  ghost predicate Durable(d: Directory, r: Receipt) {
    && Kept(d, r.inode)
    && r.inode in d.data
    && r.offset + |r.payload| <= |d.data[r.inode]|
    && d.data[r.inode][r.offset..r.offset + |r.payload|] == r.payload
  }

  lemma CurrentIsNoDigitName()
    ensures !IsDigits(CURRENT)
  {
    assert CURRENT[0] == 'c';
  }

  lemma DurableKept(d: Directory, d': Directory, r: Receipt)
    requires Durable(d, r) && Evolves(d, d')
    ensures Durable(d', r)
  {
    assert d.data[r.inode] == d'.data[r.inode][..|d.data[r.inode]|];
  }

  // ---- probing for a digit name -------------------------------------------

  /** `str(ts)` is free or already names `current`'s inode. */
  predicate Usable(d: Directory, ts: nat) {
    Decimal(ts) !in d.names || (CURRENT in d.names && d.names[Decimal(ts)] == d.names[CURRENT])
  }

  /** The first usable candidate among `start, start + step, ...`, giving up at the first non-positive one. */
  function FirstUsable(d: Directory, start: int, step: int, attempts: nat): Option<int>
    decreases attempts
  {
    if attempts == 0 || start <= 0 then None
    else if Usable(d, start) then Some(start)
    else FirstUsable(d, start + step, step, attempts - 1)
  }

  /** The upward candidates that belong to other inodes. */
  function Foreign(d: Directory, start: nat, attempts: nat): set<nat> {
    set k: nat | start <= k < start + attempts && !Usable(d, k)
  }

  lemma {:induction false} ForeignCount(d: Directory, start: nat, attempts: nat)
    ensures |Foreign(d, start, attempts)| <= attempts
    ensures |Foreign(d, start, attempts)| == attempts <==>
        forall k: nat | start <= k < start + attempts :: !Usable(d, k)
  {
    if attempts > 0 {
      ForeignCount(d, start, attempts - 1);
      var last := start + attempts - 1;
      var fewer := Foreign(d, start, attempts - 1);
      assert Foreign(d, start, attempts) == if Usable(d, last) then fewer else fewer + {last};
    } else {
      assert Foreign(d, start, 0) == {};
    }
  }

  lemma {:induction false} UpwardFirstUsable(d: Directory, start: nat, attempts: nat)
    requires start > 0
    ensures FirstUsable(d, start, 1, attempts).Some? <==> exists k: nat :: start <= k < start + attempts && Usable(d, k)
    decreases attempts
  {
    if attempts > 0 && !Usable(d, start) {
      UpwardFirstUsable(d, start + 1, attempts - 1);
    }
  }

  /** Probing upward succeeds exactly when not every candidate belongs to another inode. */
  lemma UpwardProbeSucceedsIff(d: Directory, start: nat, attempts: nat)
    requires start > 0
    ensures FirstUsable(d, start, 1, attempts).Some? <==> |Foreign(d, start, attempts)| < attempts
  {
    ForeignCount(d, start, attempts);
    UpwardFirstUsable(d, start, attempts);
  }

  // ---- probing while calls raise ------------------------------------------

  /** The calls of the scan for a digit link and of the probe for a digit name. */
  datatype Call =
    | Stat | StatCached | Scan | SameFile(name: string) | Exists(name: string) | Link(name: string) | Unlink

  /** The candidate is passed over: it exists, and is not seen to be `current`'s inode. */
  predicate PassedOver(d: Directory, ts: nat, raising: set<Call>) {
    && Decimal(ts) in d.names && Exists(Decimal(ts)) !in raising
    && (SameFile(Decimal(ts)) in raising || !(CURRENT in d.names && d.names[Decimal(ts)] == d.names[CURRENT]))
  }

  /** The candidate is taken: it exists and is seen to be `current`'s, or it does not and can be linked. */
  predicate Taken(d: Directory, ts: nat, raising: set<Call>) {
    var name := Decimal(ts);
    if name in d.names then
      && Exists(name) !in raising && SameFile(name) !in raising
      && CURRENT in d.names && d.names[name] == d.names[CURRENT]
    else Link(name) !in raising
  }

  /**
   The probe from `start` on. It gives up at the first non-positive candidate or after `attempts`; a
   candidate that is neither taken nor passed over makes `os.link` raise.
   */
  function Probe(d: Directory, start: int, step: int, attempts: nat, raising: set<Call>): Outcome<int>
    decreases attempts
  {
    if attempts == 0 || start <= 0 then Raised(RuntimeError)
    else if Taken(d, start, raising) then Returned(start)
    else if PassedOver(d, start, raising) then Probe(d, start + step, step, attempts - 1, raising)
    else Raised(IoError)
  }

  function Candidate(start: int, step: int, j: nat): int {
    start + j * step
  }

  /** The probe stops at candidate `j`, all earlier ones being positive and passed over. */
  predicate StopsAt(d: Directory, start: int, step: int, j: nat, raising: set<Call>) {
    forall i: nat | i < j :: Candidate(start, step, i) > 0 && PassedOver(d, Candidate(start, step, i), raising)
  }

  /**
   The probe returns the first candidate that is not passed over if it can be taken, raises what `os.link`
   raises if not, and gives up at the first non-positive one or when its attempts are used up.
   */
  lemma {:induction false} ProbeStops(d: Directory, start: int, step: int, attempts: nat, raising: set<Call>)
      returns (j: nat)
    ensures j <= attempts && StopsAt(d, start, step, j, raising)
    ensures var ts, r := Candidate(start, step, j), Probe(d, start, step, attempts, raising);
      if j == attempts || ts <= 0 then r == Raised(RuntimeError)
      else !PassedOver(d, ts, raising) && r == if Taken(d, ts, raising) then Returned(ts) else Raised(IoError)
    decreases attempts
  {
    j := 0;
    hide Taken, PassedOver;
    CandidateShift(start, step, 0);
    if attempts > 0 && start > 0 && !Taken(d, start, raising) && PassedOver(d, start, raising) {
      var rest := ProbeStops(d, start + step, step, attempts - 1, raising);
      j := rest + 1;
      forall i: nat | i < j
        ensures Candidate(start, step, i) > 0 && PassedOver(d, Candidate(start, step, i), raising)
      {
        if i > 0 {
          CandidateShift(start, step, i - 1);
        }
      }
      CandidateShift(start, step, rest);
    } else {
      TakenIsNotPassedOver(d, start, raising);
    }
  }

  lemma CandidateShift(start: int, step: int, i: nat)
    ensures Candidate(start, step, 0) == start
    ensures Candidate(start + step, step, i) == Candidate(start, step, i + 1)
  {
    assert (i + 1) * step == i * step + step;
  }

  lemma TakenIsNotPassedOver(d: Directory, ts: int, raising: set<Call>)
    ensures ts > 0 && Taken(d, ts, raising) ==> !PassedOver(d, ts, raising)
  {
  }

  /** With no call raising, the probe finds the first usable name. */
  lemma {:induction false} QuietProbe(d: Directory, start: int, step: int, attempts: nat)
    ensures Probe(d, start, step, attempts, {}) ==
      match FirstUsable(d, start, step, attempts)
      case Some(ts) => Returned(ts)
      case None => Raised(RuntimeError)
    decreases attempts
  {
    if attempts > 0 && start > 0 && !Usable(d, start) {
      QuietProbe(d, start + step, step, attempts - 1);
    }
  }

  lemma {:induction false} ProbedIsUsable(d: Directory, start: int, step: int, attempts: nat, raising: set<Call>)
    ensures var r := Probe(d, start, step, attempts, raising);
      r.Returned? ==>
        && r.value > 0 && Usable(d, r.value)
        && (step > 0 ==> r.value >= start) && (step < 0 ==> r.value <= start)
    decreases attempts
  {
    if attempts > 0 && start > 0 && !Taken(d, start, raising) && PassedOver(d, start, raising) {
      ProbedIsUsable(d, start + step, step, attempts - 1, raising);
    }
  }

  // ---- seeing a digit link ------------------------------------------------

  /** A cached digit epoch path of a host and the inode it was seen with. */
  datatype CachedLink = CachedLink(path: string, inode: Inode)

  /** The cached path still names `current`'s inode, with which it was seen. */
  predicate CachedHit(d: Directory, cache: Option<CachedLink>, raising: set<Call>) {
    && cache.Some? && StatCached !in raising && CURRENT in d.names
    && Binds(d, cache.value.path, cache.value.inode) && d.names[CURRENT] == cache.value.inode
  }

  /** `current` is seen to share its inode with a digit epoch: by the cache, or by the scan. */
  ghost predicate LinkSeen(d: Directory, cache: Option<CachedLink>, raising: set<Call>) {
    || CachedHit(d, cache, raising)
    || (Scan !in raising && CURRENT in d.names
        && exists n :: Binds(d, n, d.names[CURRENT]) && IsDigits(n) && SameFile(n) !in raising)
  }

  /** What is seen is there; when no call raises, what is there is seen. */
  lemma SeenIsLinked(d: Directory, cache: Option<CachedLink>, raising: set<Call>)
    requires cache.Some? ==> IsDigits(cache.value.path)
    ensures LinkSeen(d, cache, raising) ==> Linked(d)
    ensures raising == {} ==> (LinkSeen(d, cache, raising) <==> Linked(d))
  {
  }

  /** Binding `current`'s inode to a usable digit name changes no other binding and lets the directory evolve. */
  lemma LinkEvolves(d: Directory, ts: nat)
    requires WellFormed(d) && CURRENT in d.names && Usable(d, ts)
    ensures var d' := d.(names := d.names[Decimal(ts) := d.names[CURRENT]]);
      WellFormed(d') && Evolves(d, d') && Linked(d') && Binds(d', CURRENT, d.names[CURRENT])
  {
    DecimalRoundTrip(ts);
    CurrentIsNoDigitName();
    var d' := d.(names := d.names[Decimal(ts) := d.names[CURRENT]]);
    assert Binds(d', Decimal(ts), d'.names[CURRENT]);
    forall i | Kept(d, i) ensures Kept(d', i) {
      var n :| Binds(d, n, i) && IsArchiveName(n);
      assert Binds(d', n, i);
    }
  }

  /** Unlinking a linked `current` drops no kept inode. */
  lemma UnlinkEvolves(d: Directory)
    requires WellFormed(d) && Linked(d)
    ensures var d' := d.(names := d.names - {CURRENT}); WellFormed(d') && Evolves(d, d')
  {
    CurrentIsNoDigitName();
    var d' := d.(names := d.names - {CURRENT});
    forall i | Kept(d, i) ensures Kept(d', i) {
      var n :| Binds(d, n, i) && IsArchiveName(n);
      if n == CURRENT {
        var e :| Binds(d, e, d.names[CURRENT]) && IsDigits(e);
        assert Binds(d', e, i);
      } else {
        assert Binds(d', n, i);
      }
    }
  }

  /** Creating `current` on an unused inode disturbs no kept inode. */
  lemma CreateEvolves(d: Directory, i: Inode, bytes: seq<Byte>)
    requires WellFormed(d) && CURRENT !in d.names && i !in d.names.Values
    ensures var d' := Directory(d.names[CURRENT := i], d.data[i := bytes]);
      WellFormed(d') && Evolves(d, d') && Durable(d', Receipt("", i, 0, bytes))
  {
    CurrentIsNoDigitName();
    var d' := Directory(d.names[CURRENT := i], d.data[i := bytes]);
    assert Binds(d', CURRENT, i);
    forall j | Kept(d, j) ensures Kept(d', j) && j != i {
      var n :| Binds(d, n, j) && IsArchiveName(n);
      assert d.names[n] in d.names.Values && Binds(d', n, j);
    }
  }

  /** Appending to `current` keeps everything and makes the new payload durable at the old length. */
  lemma AppendEvolves(d: Directory, host: string, payload: seq<Byte>)
    requires WellFormed(d) && CURRENT in d.names
    ensures var i := d.names[CURRENT];
      var d' := d.(data := d.data[i := d.data[i] + payload]);
      WellFormed(d') && Evolves(d, d') && Durable(d', Receipt(host, i, |d.data[i]|, payload))
  {
    var i := d.names[CURRENT];
    var d' := d.(data := d.data[i := d.data[i] + payload]);
    assert Binds(d', CURRENT, i);
    forall j | Kept(d, j) ensures Kept(d', j) {
      var n :| Binds(d, n, j) && IsArchiveName(n);
      assert Binds(d', n, j);
    }
  }

  // ---- truncating the live file -------------------------------------------

  /** `open(current, "wb")` on an existing `current` and writing `bytes`: the inode, with all its names, is reused. */
  function Overwritten(d: Directory, bytes: seq<Byte>): Directory
    requires CURRENT in d.names
  {
    d.(data := d.data[d.names[CURRENT] := bytes])
  }

  /** Digit epochs stay bound as they are and no kept inode is dropped; nothing is said of their bytes. */
  ghost predicate EpochsStay(d: Directory, d': Directory) {
    && (forall n | n in d.names && IsDigits(n) :: Binds(d', n, d.names[n]))
    && (forall i | Kept(d, i) :: Kept(d', i))
  }

  lemma OverwriteKeepsEpochs(d: Directory, bytes: seq<Byte>)
    requires CURRENT in d.names
    ensures EpochsStay(d, Overwritten(d, bytes)) && Kept(d, d.names[CURRENT])
  {
    var d' := Overwritten(d, bytes);
    assert Binds(d, CURRENT, d.names[CURRENT]);
    forall i | Kept(d, i) ensures Kept(d', i) {
      var n :| Binds(d, n, i) && IsArchiveName(n);
      assert Binds(d', n, i);
    }
  }

  /** Overwriting lets the directory evolve exactly when it rewrites what was there. */
  lemma OverwriteEvolvesIff(d: Directory, bytes: seq<Byte>)
    requires WellFormed(d) && CURRENT in d.names
    ensures WellFormed(Overwritten(d, bytes))
    ensures Evolves(d, Overwritten(d, bytes)) <==> d.data[d.names[CURRENT]] <= bytes
  {
    OverwriteKeepsEpochs(d, bytes);
  }

  /** The payloads that an overwritten `current` loses: those on its inode whose range now reads otherwise. */
  lemma OverwriteLosesIff(d: Directory, bytes: seq<Byte>, r: Receipt)
    requires WellFormed(d) && CURRENT in d.names && Durable(d, r)
    ensures !Durable(Overwritten(d, bytes), r) <==>
      r.inode == d.names[CURRENT]
      && !(r.offset + |r.payload| <= |bytes| && bytes[r.offset..r.offset + |r.payload|] == r.payload)
  {
    OverwriteKeepsEpochs(d, bytes);
  }

  /** Every payload the directory holds survives an overwriting exactly when the old content does. */
  lemma AllDurableIff(d: Directory, bytes: seq<Byte>)
    requires WellFormed(d) && CURRENT in d.names
    ensures (forall r | Durable(d, r) :: Durable(Overwritten(d, bytes), r)) <==> d.data[d.names[CURRENT]] <= bytes
  {
    var i := d.names[CURRENT];
    OverwriteEvolvesIff(d, bytes);
    OverwriteKeepsEpochs(d, bytes);
    var whole := Receipt("", i, 0, d.data[i]);
    assert Durable(d, whole);
    if Durable(Overwritten(d, bytes), whole) {
      assert d.data[i] == bytes[..|d.data[i]|];
    }
    if d.data[i] <= bytes {
      forall r | Durable(d, r) ensures Durable(Overwritten(d, bytes), r) {
        DurableKept(d, Overwritten(d, bytes), r);
      }
    }
  }

  lemma EvolvesTransitive(a: Directory, b: Directory, c: Directory)
    requires Evolves(a, b) && Evolves(b, c)
    ensures Evolves(a, c)
  {
  }

  lemma FreshInodeExists(used: set<Inode>)
    ensures exists i: Inode :: i !in used
  {
    var bound := UpperBound(used);
  }

  lemma {:induction false} UpperBound(used: set<Inode>) returns (b: Inode)
    ensures forall i | i in used :: i < b
    ensures b !in used
    decreases |used|
  {
    if used == {} {
      b := 0;
    } else {
      var x :| x in used;
      var rest := UpperBound(used - {x});
      b := if x < rest then rest else x + 1;
      assert used == (used - {x}) + {x};
    }
  }
}
