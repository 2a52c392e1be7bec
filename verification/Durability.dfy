/** One member's durability as a step system: the WAL and its group sync,
    applies that commit without an fsync, the background checkpoint, purges
    that reach the WAL after a checkpoint, snapshot installs, and crashes.

    A store is a function of the entries applied to it, so the data file's
    contents are modelled as the sequence of entries applied. */
module Durability {
  import opened Common
  import opened Wal

  /** The checkpointer: waiting, in the engine's sync (with what it read
      before), or done with it and about to record the purge. */
  datatype Checkpoint =
    | Idle
    | Syncing(target: nat, seen: nat, purge: Option<nat>)
    | Synced(target: nat, purge: Option<nat>)

  datatype Node = Node(
    hist: seq<Entry>,           // the raft log from index 0, purged entries included
    end: nat,                   // last log id's index + 1, as the log store reports it
    wal: seq<Rec>,              // records handed to the writer thread, in order
    synced: nat,                // how many of them an fdatasync has covered
    boot: nat,                  // how many of them this process found when it opened the log
    waitFor: nat,               // records openraft waits on before it appends again
    acked: nat,                 // LogProgress.last_durable
    commits: seq<seq<Entry>>,   // what the data file holds after each engine commit
    safe: nat,                  // the newest commit a durable one covers
    store: seq<Entry>,          // what reads see: every entry applied since the log began
    applied: nat,               // the applied watch (index + 1)
    returned: nat,              // applied when the last apply or install returned
    pending: Option<nat>,       // purged in memory, not yet in the WAL
    ckpt: Checkpoint)

  datatype Step =
    | Append(e: Entry)
    | Sync(n: nat)
    | Truncate(i: nat)
    | Apply(commits: bool)
    | ApplyReturn
    | Install(log: seq<Entry>)
    | Purge(p: nat)
    | ClearPending(k: nat)
    | CheckpointBegin
    | CheckpointFail
    | CheckpointSync(upto: nat)
    | CheckpointPurge
    | Crash(n: nat, c: nat, end: nat)
    | ProcessCrash(n: nat, c: nat, end: nat)

  const Init := Node([], 0, [], 0, 0, 0, 0, [[]], 0, [], 0, 0, None, Idle)

  function Max(a: nat, b: nat): nat { if a < b then b else a }

  function Min(a: nat, b: nat): nat { if a < b then a else b }

  function Last<T>(s: seq<T>): T
    requires s != []
  {
    s[|s| - 1]
  }

  /** `last_durable` after the callback of one synced record. */
  function Ack(r: Rec, a: nat): nat {
    match r
    case EntryRec(i, _) => Max(a, i + 1)
    case TruncateRec(i) => Min(a, i)
    case PurgeRec(_) => a
  }

  /** `last_durable` after the callbacks of records `lo..n` ran in queue order. */
  function Acks(rs: seq<Rec>, lo: nat, n: nat, a: nat): nat
    requires lo <= n <= |rs|
    decreases n - lo
  {
    if lo == n then a else Acks(rs, lo + 1, n, Ack(rs[lo], a))
  }

  /** `end` is what the reopened log store reports: the last entry, or else the purge. */
  predicate IsEnd(l: Log, end: nat) {
    if l.entries == map[] then end == l.purged
    else 0 < end && end - 1 in l.entries && forall i :: i in l.entries ==> i < end
  }

  predicate Hole(s: Node, p: nat) { s.end <= p }

  predicate Enabled(s: Node, step: Step) {
    match step
    // openraft appends after its last entry, and not while it waits on a synced write.
    case Append(_) => s.waitFor <= s.synced && s.end == |s.hist|
    case Sync(n) => s.synced <= n <= |s.wal| && s.boot <= n
    // Only entries not applied are ever truncated.
    case Truncate(i) => s.waitFor <= s.synced && s.end == |s.hist| && s.applied <= i < |s.hist|
    // An entry is applied only once this member's log holds it durably.
    case Apply(_) => s.applied < |s.hist| && s.applied < s.acked
    case ApplyReturn => s.applied <= |s.hist|
    case Install(log) =>
      && s.waitFor <= s.synced && s.end == |s.hist| && s.returned == s.applied
      && s.applied < |log| && s.applied <= |s.hist| && s.hist[..s.applied] <= log
      && (|log| <= |s.hist| ==> log == s.hist[..|log|])
    // openraft purges at or below an index whose apply returned, or at an installed snapshot.
    case Purge(p) => p < s.returned && (Hole(s, p) ==> p + 1 == |s.hist| && s.commits != [])
    case ClearPending(k) =>
      && k < s.synced <= |s.wal| && s.wal[k].PurgeRec?
      && s.pending.Some? && s.pending.value <= s.wal[k].i
    case CheckpointBegin => s.ckpt.Idle? && s.commits != []
    case CheckpointFail => s.ckpt.Syncing?
    case CheckpointSync(upto) => s.ckpt.Syncing? && s.ckpt.seen <= upto < |s.commits|
    case CheckpointPurge => s.ckpt.Synced?
    // A power cut keeps the synced records and some prefix of the rest, and of the commits.
    case Crash(n, c, end) => CanKeep(s, n, c, end)
    // The process alone: what it had written is read back, from the page cache.
    case ProcessCrash(n, c, end) => CanKeep(s, n, c, end)
  }

  predicate CanKeep(s: Node, n: nat, c: nat, end: nat) {
    s.synced <= n <= |s.wal| && s.safe <= c < |s.commits| && IsEnd(Play(s.wal, n), end)
  }

  function Do(s: Node, step: Step): Node
    requires Enabled(s, step)
  {
    match step
    case Append(e) =>
      s.(hist := s.hist + [e], end := s.end + 1, wal := s.wal + [EntryRec(s.end, e)])
    case Sync(n) => s.(synced := n, acked := Acks(s.wal, Called(s), n, s.acked))
    case Truncate(i) =>
      s.(hist := s.hist[..i], end := i, wal := s.wal + [TruncateRec(i)], waitFor := |s.wal| + 1)
    case Apply(commits) =>
      var store := s.store + [s.hist[s.applied]];
      s.(applied := s.applied + 1, store := store, commits := if commits then s.commits + [store] else s.commits)
    case ApplyReturn => s.(returned := s.applied, commits := s.commits + [s.store])
    case Install(log) =>
      s.(hist := if |s.hist| < |log| then log else s.hist,
         commits := s.commits + [log], safe := |s.commits|, store := log, applied := |log|, returned := |log|)
    case Purge(p) =>
      var pending := Some(if s.pending.Some? then Max(s.pending.value, p) else p);
      if Hole(s, p) then
        s.(pending := pending, safe := |s.commits| - 1,
           wal := s.wal + [PurgeRec(p)], waitFor := |s.wal| + 1, end := p + 1)
      else s.(pending := pending)
    case ClearPending(_) => s.(pending := None)
    case CheckpointBegin => s.(ckpt := Syncing(s.applied, |s.commits| - 1, s.pending))
    case CheckpointFail => s.(ckpt := Idle)
    case CheckpointSync(upto) =>
      s.(safe := Max(s.safe, upto), ckpt := Synced(s.ckpt.target, s.ckpt.purge))
    case CheckpointPurge =>
      if s.ckpt.purge.Some? && s.ckpt.purge.value < s.ckpt.target then
        s.(wal := s.wal + [PurgeRec(s.ckpt.purge.value)], ckpt := Idle)
      else s.(ckpt := Idle)
    // What is read back from the disk is on the disk.
    case Crash(n, c, end) => Restart(s.wal[..n], n, [s.commits[c]], 0, Play(s.wal, n), end)
    // What is read back from the page cache may not be.
    case ProcessCrash(n, c, end) => Restart(s.wal[..n], s.synced, s.commits[..c + 1], s.safe, Play(s.wal, n), end)
  }

  /** The first record whose callback has not run: those of an earlier process never do. */
  function Called(s: Node): nat { Max(s.synced, s.boot) }

  /** Reopening a data file that holds the last of `commits` beside a WAL that replays to `l`. All of
      the log counts as durable, and nothing is waited for. */
  function Restart(wal: seq<Rec>, synced: nat, commits: seq<seq<Entry>>, safe: nat, l: Log, end: nat): Node
    requires commits != []
  {
    var file := Last(commits);
    var a := |file|;
    var at := (k: nat) => if a + k in l.entries then l.entries[a + k] else Entry(0, []);
    var tail := if end <= a then [] else seq(end - a, at);
    Node(file + tail, end, wal, synced, |wal|, 0, end, commits, safe, file, a, a, None, Idle)
  }

  /** The states a run of steps can lead to. */
  ghost predicate Reaches(s: Node, steps: seq<Step>, t: Node)
    decreases |steps|
  {
    if steps == [] then s == t
    else Enabled(s, steps[0]) && Reaches(Do(s, steps[0]), steps[1..], t)
  }

  // ---------- The invariants ----------

  function Durable(s: Node): nat
    requires s.safe < |s.commits|
  {
    |s.commits[s.safe]|
  }

  /** The data file's commits are prefixes of the log, the store is what was applied, and a purge is
      kept back until a durable commit covers it. */
  ghost predicate FileInv(s: Node) {
    && s.safe < |s.commits|
    && (forall c :: 0 <= c < |s.commits| ==> s.commits[c] <= s.hist)
    && (forall c, d :: 0 <= c <= d < |s.commits| ==> |s.commits[c]| <= |s.commits[d]|)
    && s.returned <= |Last(s.commits)| <= s.applied <= |s.hist|
    && s.store == s.hist[..s.applied]
    && (s.pending.Some? ==> s.pending.value < |Last(s.commits)|)
    && (s.ckpt.Syncing? ==> s.ckpt.seen < |s.commits|)
    && (s.ckpt.Syncing? && s.ckpt.purge.Some? ==> s.ckpt.purge.value < |s.commits[s.ckpt.seen]|)
    && (s.ckpt.Synced? && s.ckpt.purge.Some? ==> s.ckpt.purge.value < Durable(s))
  }

  /** The WAL never records a purge past what the data file durably applied. */
  ghost predicate PurgeBehindFile(s: Node)
    requires s.safe < |s.commits|
  {
    forall k :: 0 <= k < |s.wal| && s.wal[k].PurgeRec? ==> s.wal[k].i < Durable(s)
  }

  ghost predicate WalInv(s: Node) {
    && s.synced <= |s.wal| && s.waitFor <= |s.wal| && s.boot <= |s.wal|
    && AbovePurges(s.wal) && Linked(s.wal) && Fresh(s.wal)
    && s.end <= |s.hist| && HoldsBelow(s.wal, |s.wal|, s.end)
  }

  /** Below its end the log has no hole above the highest purge. */
  ghost predicate Present(s: Node) {
    forall i :: 0 <= i < s.end && !Purged(s.wal, |s.wal|, i) ==> Has(s.wal, |s.wal|, i)
  }

  /** What every run keeps, whatever crashes. */
  ghost predicate Base(s: Node) {
    FileInv(s) && PurgeBehindFile(s) && WalInv(s) && Present(s)
  }

  /** Entry `i` of the log is in the WAL, put there by one of the first `n` records. */
  ghost predicate Logged(wal: seq<Rec>, hist: seq<Entry>, n: nat, i: nat) {
    exists j: nat :: j < n && Alive(wal, |wal|, j, i) && i < |hist| && wal[j].e == hist[i]
  }

  /** Every entry the data file may lack is in the WAL; in its synced part once it counts as durable. */
  ghost predicate Covered(s: Node)
    requires s.safe < |s.commits|
  {
    && (forall i :: Durable(s) <= i < |s.hist| ==> Logged(s.wal, s.hist, |s.wal|, i))
    && (forall i :: Durable(s) <= i < |s.hist| && i < s.acked ==> Logged(s.wal, s.hist, s.synced, i))
  }

  ghost predicate InOrder(wal: seq<Rec>, j: nat, k: nat) {
    j < |wal| && k < |wal| && wal[j].EntryRec? && wal[k].EntryRec? ==> wal[j].i < wal[k].i
  }

  /** Records whose callbacks are still to run are in index order, and will make durable only what is
      below `end`. */
  ghost predicate TailInv(s: Node)
    requires Called(s) <= |s.wal|
  {
    && (forall k :: Called(s) <= k < |s.wal| && s.waitFor <= k && s.wal[k].EntryRec? ==> s.wal[k].i < s.end)
    && (forall j, k :: Called(s) <= j < k < |s.wal| ==> InOrder(s.wal, j, k))
    && (forall k :: Called(s) <= k < |s.wal| && s.wal[k].TruncateRec? ==> k < s.waitFor && |s.hist| <= s.wal[k].i)
    && (forall n :: Called(s) <= n <= |s.wal| && s.waitFor <= n ==> Acks(s.wal, Called(s), n, s.acked) <= s.end)
  }

  /** What counts as durable is. */
  ghost predicate Honest(s: Node)
    requires s.safe < |s.commits| && Called(s) <= |s.wal|
  {
    && (s.end < |s.hist| ==> Durable(s) == |s.hist|)
    && (s.applied <= s.acked || s.applied == Durable(s))
    && Covered(s) && TailInv(s)
  }

  /** What every run keeps whose process crashes leave no entry behind that only the page cache has. */
  ghost predicate Inv(s: Node) { Base(s) && Honest(s) }

  /** The condition on a process crash: no entry the data file may lack was put in what is left of the
      WAL by a record past the last sync. */
  ghost predicate AllSynced(s: Node, n: nat)
    requires s.safe < |s.commits|
  {
    forall j: nat, i: nat :: s.synced <= j && Durable(s) <= i ==> !Alive(s.wal, n, j, i)
  }

  ghost predicate Guarded(s: Node, step: Step) {
    step.ProcessCrash? ==> s.safe < |s.commits| && AllSynced(s, step.n)
  }

  /** Every process crash of the run meets the condition. */
  ghost predicate GuardedRun(s: Node, steps: seq<Step>)
    decreases |steps|
  {
    steps == [] || !Enabled(s, steps[0]) || (Guarded(s, steps[0]) && GuardedRun(Do(s, steps[0]), steps[1..]))
  }

  // ---------- Writing one more record ----------

  lemma StillPurged(rs: seq<Rec>, r: Rec, i: nat)
    requires Purged(rs, |rs|, i)
    ensures Purged(rs + [r], |rs| + 1, i)
  {
    var k :| 0 <= k < |rs| && rs[k].PurgeRec? && i <= rs[k].i;
    assert (rs + [r])[k] == rs[k];
  }

  lemma RecordKeepsPresent(s: Node, t: Node, r: Rec)
    requires Present(s) && t.wal == s.wal + [r]
    requires forall i :: 0 <= i < t.end && Cuts(r, i) ==> Purged(t.wal, |t.wal|, i) || Has(t.wal, |t.wal|, i)
    requires t.end <= s.end || forall i :: s.end <= i < t.end ==> Cuts(r, i)
    ensures Present(t)
  {
    forall i | 0 <= i < t.end && !Purged(t.wal, |t.wal|, i) ensures Has(t.wal, |t.wal|, i) {
      if !Cuts(r, i) {
        if Purged(s.wal, |s.wal|, i) { StillPurged(s.wal, r, i); }
        var j: nat :| Alive(s.wal, |s.wal|, j, i);
        AliveStep(s.wal, r, j, i);
      }
    }
  }

  /** One more record: an entry goes at the end, a truncation lowers it, a purge does not. */
  lemma RecordKeepsWal(s: Node, t: Node, r: Rec)
    requires WalInv(s) && t.wal == s.wal + [r]
    requires t.synced <= |t.wal| && t.waitFor <= |t.wal| && t.boot <= |t.wal| && t.end <= |t.hist|
    requires r.EntryRec? ==> !Purged(s.wal, |s.wal|, r.i) && r.i == s.end < t.end
    requires r.EntryRec? && r.i != 0 ==> Purged(s.wal, |s.wal|, r.i - 1) || Has(s.wal, |s.wal|, r.i - 1)
    requires s.end <= t.end || (r.TruncateRec? && r.i == t.end)
    ensures WalInv(t)
  {
    LinkedStep(s.wal, r);
    AbovePurgesStep(s.wal, r);
    FreshStep(s.wal, r);
    forall j: nat, i: nat | Alive(t.wal, |t.wal|, j, i) ensures i < t.end {
      if j < |s.wal| {
        assert !Cuts(t.wal[|s.wal|], i);
        assert forall k :: j < k < |s.wal| ==> t.wal[k] == s.wal[k];
        assert Alive(s.wal, |s.wal|, j, i);
      }
    }
  }

  lemma StillLogged(s: Node, t: Node, r: Rec, n: nat, i: nat)
    requires t.wal == s.wal + [r] && !Cuts(r, i) && Logged(s.wal, s.hist, n, i)
    requires i < |t.hist| && t.hist[i] == s.hist[i]
    ensures Logged(t.wal, t.hist, n, i)
  {
    var j: nat :| j < n && Alive(s.wal, |s.wal|, j, i) && s.wal[j].e == s.hist[i];
    AliveStep(s.wal, r, j, i);
  }

  lemma LoggedMore(wal: seq<Rec>, hist: seq<Entry>, n: nat, n': nat, i: nat)
    requires Logged(wal, hist, n, i) && n <= n'
    ensures Logged(wal, hist, n', i)
  {
  }

  lemma RecordKeepsCovered(s: Node, t: Node, r: Rec)
    requires s.safe < |s.commits| && t.safe < |t.commits| && Durable(s) <= Durable(t)
    requires Covered(s) && t.wal == s.wal + [r] && t.synced == s.synced && t.acked == s.acked
    requires forall i :: Durable(t) <= i < |s.hist| && i < |t.hist| ==> !Cuts(r, i) && t.hist[i] == s.hist[i]
    requires forall i :: Durable(t) <= i < |t.hist| && |s.hist| <= i ==>
      Logged(t.wal, t.hist, |t.wal|, i) && t.acked <= i
    ensures Covered(t)
  {
    forall i | Durable(t) <= i < |t.hist|
      ensures Logged(t.wal, t.hist, |t.wal|, i) && (i < t.acked ==> Logged(t.wal, t.hist, t.synced, i))
    {
      if i < |s.hist| {
        StillLogged(s, t, r, |s.wal|, i);
        LoggedMore(t.wal, t.hist, |s.wal|, |t.wal|, i);
        if i < s.acked { StillLogged(s, t, r, s.synced, i); }
      }
    }
  }

  lemma {:induction false} AcksOnPrefix(rs: seq<Rec>, r: Rec, lo: nat, n: nat, a: nat)
    requires lo <= n <= |rs|
    ensures Acks(rs + [r], lo, n, a) == Acks(rs, lo, n, a)
    decreases n - lo
  {
    if lo < n {
      AcksOnPrefix(rs, r, lo + 1, n, Ack(rs[lo], a));
    }
  }

  /** Callbacks run in queue order, so a group can be taken in two parts. */
  lemma {:induction false} AcksSplit(rs: seq<Rec>, lo: nat, mid: nat, n: nat, a: nat)
    requires lo <= mid <= n <= |rs|
    ensures Acks(rs, lo, n, a) == Acks(rs, mid, n, Acks(rs, lo, mid, a))
    decreases mid - lo
  {
    if lo < mid {
      AcksSplit(rs, lo + 1, mid, n, Ack(rs[lo], a));
    }
  }

  lemma RecordKeepsTail(s: Node, t: Node, r: Rec)
    requires Called(s) <= |s.wal| && s.waitFor <= |s.wal| && TailInv(s)
    requires t.wal == s.wal + [r] && t.synced == s.synced && t.boot == s.boot && t.acked == s.acked
    requires t.waitFor == |t.wal| || (t.waitFor == s.waitFor && s.end <= t.end)
    requires r.EntryRec? ==> s.waitFor <= s.synced && r.i == s.end < t.end
    requires r.TruncateRec? ==> s.waitFor <= s.synced && t.end == r.i && t.waitFor == |t.wal|
    requires !r.EntryRec? ==> |t.hist| <= |s.hist| && (r.TruncateRec? ==> |t.hist| <= r.i)
    requires r.PurgeRec? ==> s.end <= t.end
    ensures TailInv(t)
  {
    var lo := Called(s);
    forall j, k | lo <= j < k < |t.wal| ensures InOrder(t.wal, j, k) {
      assert k < |s.wal| ==> InOrder(s.wal, j, k);
    }
    forall n | lo <= n <= |t.wal| && t.waitFor <= n ensures Acks(t.wal, lo, n, t.acked) <= t.end {
      if n < |t.wal| {
        AcksOnPrefix(s.wal, r, lo, n, s.acked);
      } else {
        AcksOnPrefix(s.wal, r, lo, |s.wal|, s.acked);
        AcksSplit(t.wal, lo, |s.wal|, n, s.acked);
        assert Acks(s.wal, lo, |s.wal|, s.acked) <= s.end;
        assert Acks(t.wal, n, n, 0) == 0;
      }
    }
  }

  // ---------- Each step keeps them ----------

  ghost predicate Appended(s: Node, t: Node, e: Entry) {
    && s.waitFor <= s.synced && s.end == |s.hist|
    && t == s.(hist := s.hist + [e], end := s.end + 1, wal := s.wal + [EntryRec(s.end, e)])
  }

  lemma AppendKeepsBase(s: Node, t: Node, e: Entry)
    requires Base(s) && Appended(s, t, e)
    ensures Base(t)
  {
    if s.end != 0 && !Purged(s.wal, |s.wal|, s.end - 1) { assert Has(s.wal, |s.wal|, s.end - 1); }
    RecordKeepsWal(s, t, EntryRec(s.end, e));
    assert Alive(t.wal, |t.wal|, |s.wal|, s.end);
    RecordKeepsPresent(s, t, EntryRec(s.end, e));
  }

  lemma AppendKeepsCovered(s: Node, t: Node, e: Entry)
    requires Inv(s) && Appended(s, t, e)
    ensures Covered(t)
  {
    assert Alive(t.wal, |t.wal|, |s.wal|, s.end);
    assert Acks(s.wal, Called(s), Called(s), s.acked) <= s.end;
    assert t.wal[|s.wal|].e == t.hist[s.end];
    assert Logged(t.wal, t.hist, |t.wal|, s.end);
    RecordKeepsCovered(s, t, EntryRec(s.end, e));
  }

  lemma AppendKeepsInv(s: Node, e: Entry)
    requires Base(s) && Enabled(s, Append(e))
    ensures Base(Do(s, Append(e))) && (Honest(s) ==> Honest(Do(s, Append(e))))
  {
    var t := Do(s, Append(e));
    AppendKeepsBase(s, t, e);
    if Honest(s) {
      AppendKeepsCovered(s, t, e);
      RecordKeepsTail(s, t, EntryRec(s.end, e));
    }
  }

  lemma TruncateKeepsInv(s: Node, i: nat)
    requires Base(s) && Enabled(s, Truncate(i))
    ensures Base(Do(s, Truncate(i))) && (Honest(s) ==> Honest(Do(s, Truncate(i))))
  {
    var t := Do(s, Truncate(i));
    var r := TruncateRec(i);
    RecordKeepsWal(s, t, r);
    RecordKeepsPresent(s, t, r);
    if Honest(s) {
      RecordKeepsCovered(s, t, r);
      RecordKeepsTail(s, t, r);
    }
  }

  /** `t` records a purge a durable commit covers; over a hole it also moves the end. */
  ghost predicate PurgeRecorded(s: Node, t: Node, p: nat) {
    && FileInv(s) && FileInv(t) && t.hist == s.hist && t.applied == s.applied
    && Durable(s) <= Durable(t) && p < Durable(t)
    && t.wal == s.wal + [PurgeRec(p)] && t.synced == s.synced && t.boot == s.boot && t.acked == s.acked
    && (|| (t.waitFor == s.waitFor && t.end == s.end)
        || (t.waitFor == |t.wal| && s.end <= p && t.end == p + 1 == |s.hist|))
  }

  lemma PurgeRecordKeepsBase(s: Node, t: Node, p: nat)
    requires Base(s) && PurgeRecorded(s, t, p)
    ensures Base(t)
  {
    RecordKeepsWal(s, t, PurgeRec(p));
    forall i | 0 <= i <= p ensures Purged(t.wal, |t.wal|, i) { assert t.wal[|s.wal|] == PurgeRec(p); }
    RecordKeepsPresent(s, t, PurgeRec(p));
  }

  lemma PurgeRecordKeepsInv(s: Node, t: Node, p: nat)
    requires Base(s) && PurgeRecorded(s, t, p)
    ensures Base(t) && (Honest(s) ==> Honest(t))
  {
    PurgeRecordKeepsBase(s, t, p);
    if Honest(s) {
      RecordKeepsCovered(s, t, PurgeRec(p));
      RecordKeepsTail(s, t, PurgeRec(p));
    }
  }

  lemma PurgeKeepsInv(s: Node, p: nat)
    requires Base(s) && Enabled(s, Purge(p))
    ensures Base(Do(s, Purge(p))) && (Honest(s) ==> Honest(Do(s, Purge(p))))
  {
    if Hole(s, p) { PurgeRecordKeepsInv(s, Do(s, Purge(p)), p); }
  }

  /** What a group's callbacks raise `last_durable` to is in that group. */
  lemma {:induction false} AckedByEntry(rs: seq<Rec>, lo: nat, n: nat, a: nat, i: nat)
    requires lo <= n <= |rs| && i < Acks(rs, lo, n, a)
    ensures i < a || exists k :: lo <= k < n && rs[k].EntryRec? && i <= rs[k].i
    decreases n - lo
  {
    if lo < n {
      AckedByEntry(rs, lo + 1, n, Ack(rs[lo], a), i);
    }
  }

  /** Truncations only reach entries not applied, so `last_durable` never drops below the applied. */
  lemma {:induction false} AcksCoverApplied(rs: seq<Rec>, lo: nat, n: nat, a: nat, applied: nat)
    requires lo <= n <= |rs| && applied <= a
    requires forall k :: lo <= k < n && rs[k].TruncateRec? ==> applied <= rs[k].i
    ensures applied <= Acks(rs, lo, n, a)
    decreases n - lo
  {
    if lo < n {
      AcksCoverApplied(rs, lo + 1, n, Ack(rs[lo], a), applied);
    }
  }

  lemma SyncedIsLogged(s: Node, n: nat, i: nat)
    requires Inv(s) && Called(s) <= n <= |s.wal|
    requires Durable(s) <= i < |s.hist| && i < Acks(s.wal, Called(s), n, s.acked)
    ensures Logged(s.wal, s.hist, n, i)
  {
    AckedByEntry(s.wal, Called(s), n, s.acked, i);
    if i < s.acked {
      LoggedMore(s.wal, s.hist, s.synced, n, i);
    } else {
      var k: nat :| Called(s) <= k < n && s.wal[k].EntryRec? && i <= s.wal[k].i;
      assert Logged(s.wal, s.hist, |s.wal|, i);
      var j: nat :| j < |s.wal| && Alive(s.wal, |s.wal|, j, i) && s.wal[j].e == s.hist[i];
      assert n <= j ==> InOrder(s.wal, k, j);
    }
  }

  lemma SyncKeepsTail(s: Node, n: nat)
    requires Inv(s) && Enabled(s, Sync(n))
    ensures TailInv(Do(s, Sync(n)))
  {
    var a := Acks(s.wal, Called(s), n, s.acked);
    forall m | n <= m <= |s.wal| && s.waitFor <= m ensures Acks(s.wal, n, m, a) <= s.end {
      AcksSplit(s.wal, Called(s), n, m, s.acked);
    }
  }

  lemma SyncKeepsInv(s: Node, n: nat)
    requires Base(s) && Enabled(s, Sync(n))
    ensures Base(Do(s, Sync(n))) && (Honest(s) ==> Honest(Do(s, Sync(n))))
  {
    var t := Do(s, Sync(n));
    if Honest(s) {
      if s.applied <= s.acked { AcksCoverApplied(s.wal, Called(s), n, s.acked, s.applied); }
      forall i | Durable(t) <= i < |t.hist| && i < t.acked ensures Logged(t.wal, t.hist, n, i) {
        SyncedIsLogged(s, n, i);
      }
      SyncKeepsTail(s, n);
    }
  }

  /** A step that leaves the log and the WAL alone only has to keep the file's part. */
  ghost predicate FileStep(s: Node, t: Node) {
    && FileInv(s) && FileInv(t) && Durable(s) <= Durable(t)
    && t.wal == s.wal && t.synced == s.synced && t.boot == s.boot && t.waitFor == s.waitFor
    && t.acked == s.acked && t.end == s.end
    && (t.hist == s.hist || (Durable(t) == |t.hist| && s.end <= |t.hist| && s.waitFor <= s.synced))
  }

  lemma FileStepKeepsBase(s: Node, t: Node)
    requires Base(s) && FileStep(s, t)
    ensures Base(t)
  {
  }

  lemma FileStepKeepsHonest(s: Node, t: Node)
    requires Inv(s) && FileStep(s, t) && (t.applied <= t.acked || t.applied == Durable(t))
    ensures Honest(t)
  {
  }

  lemma CheckpointPurgeKeepsInv(s: Node)
    requires Base(s) && Enabled(s, CheckpointPurge)
    ensures Base(Do(s, CheckpointPurge)) && (Honest(s) ==> Honest(Do(s, CheckpointPurge)))
  {
    var t := Do(s, CheckpointPurge);
    if s.ckpt.purge.Some? && s.ckpt.purge.value < s.ckpt.target {
      CheckpointPurgeRecords(s);
      PurgeRecordKeepsInv(s, t, s.ckpt.purge.value);
    } else {
      FileStepKeepsBase(s, t);
      if Honest(s) { FileStepKeepsHonest(s, t); }
    }
  }

  lemma CheckpointPurgeRecords(s: Node)
    requires FileInv(s) && s.ckpt.Synced? && s.ckpt.purge.Some? && s.ckpt.purge.value < s.ckpt.target
    ensures PurgeRecorded(s, Do(s, CheckpointPurge), s.ckpt.purge.value)
  {
  }

  lemma CheckpointSyncKeepsInv(s: Node, upto: nat)
    requires Base(s) && Enabled(s, CheckpointSync(upto))
    ensures Base(Do(s, CheckpointSync(upto))) && (Honest(s) ==> Honest(Do(s, CheckpointSync(upto))))
  {
    FileStepKeepsBase(s, Do(s, CheckpointSync(upto)));
    if Honest(s) { FileStepKeepsHonest(s, Do(s, CheckpointSync(upto))); }
  }

  lemma QuietStepKeepsInv(s: Node, step: Step)
    requires Base(s) && Enabled(s, step)
    requires step.ClearPending? || step.CheckpointBegin? || step.CheckpointFail?
    ensures Base(Do(s, step)) && (Honest(s) ==> Honest(Do(s, step)))
  {
    FileStepKeepsBase(s, Do(s, step));
    if Honest(s) { FileStepKeepsHonest(s, Do(s, step)); }
  }

  /** Applying the next entry to the store leaves the log's prefix. */
  lemma ApplyIsFileStep(s: Node, commits: bool)
    requires FileInv(s) && Enabled(s, Apply(commits))
    ensures FileStep(s, Do(s, Apply(commits)))
  {
    assert Do(s, Apply(commits)).store == s.hist[..s.applied + 1];
  }

  lemma ApplyKeepsInv(s: Node, commits: bool)
    requires Base(s) && Enabled(s, Apply(commits))
    ensures Base(Do(s, Apply(commits))) && (Honest(s) ==> Honest(Do(s, Apply(commits))))
  {
    var t := Do(s, Apply(commits));
    ApplyIsFileStep(s, commits);
    FileStepKeepsBase(s, t);
    if Honest(s) { FileStepKeepsHonest(s, t); }
  }

  lemma ApplyReturnKeepsInv(s: Node)
    requires Base(s)
    ensures Base(Do(s, ApplyReturn)) && (Honest(s) ==> Honest(Do(s, ApplyReturn)))
  {
    FileStepKeepsBase(s, Do(s, ApplyReturn));
    if Honest(s) { FileStepKeepsHonest(s, Do(s, ApplyReturn)); }
  }

  lemma InstallKeepsInv(s: Node, log: seq<Entry>)
    requires Base(s) && Enabled(s, Install(log))
    ensures Base(Do(s, Install(log))) && (Honest(s) ==> Honest(Do(s, Install(log))))
  {
    var t := Do(s, Install(log));
    forall c | 0 <= c < |s.commits| ensures s.commits[c] <= t.hist && |s.commits[c]| <= |log| {
      assert |s.commits[c]| <= |Last(s.commits)|;
      assert s.commits[c] == s.hist[..s.applied][..|s.commits[c]|];
    }
    FileStepKeepsBase(s, t);
    if Honest(s) { FileStepKeepsHonest(s, t); }
  }

  // ---------- Crash and restart ----------

  predicate IsCrash(step: Step) { step.Crash? || step.ProcessCrash? }

  /** What survives of the WAL replays, above the purges, to a log with no hole up to its end. */
  lemma ReplayHasNoHole(s: Node, n: nat, end: nat, i: nat)
    requires WalInv(s) && n <= |s.wal| && IsEnd(Play(s.wal, n), end)
    requires i < end && !Purged(s.wal, n, i)
    ensures Has(s.wal, n, i) && i in Play(s.wal, n).entries
  {
    PlayedPurge(s.wal, n);
    assert Play(s.wal, n).entries != map[];
    PlayIsAlive(s.wal, n, end - 1);
    var j: nat :| Alive(s.wal, n, j, end - 1);
    NoHoleBelow(s.wal, n, j, end - 1, i);
    PlayIsAlive(s.wal, n, i);
  }

  /** The restarted log above the data file is the replayed WAL, entry for entry. */
  lemma RestartedTail(s: Node, step: Step, i: nat)
    requires Base(s) && Enabled(s, step) && IsCrash(step)
    requires |s.commits[step.c]| <= i < |Do(s, step).hist|
    ensures i < step.end && i in Play(s.wal, step.n).entries && Has(s.wal, step.n, i)
    ensures Do(s, step).hist[i] == Play(s.wal, step.n).entries[i]
  {
    assert |s.commits[s.safe]| <= |s.commits[step.c]|;
    assert !Purged(s.wal, step.n, i);
    ReplayHasNoHole(s, step.n, step.end, i);
  }

  lemma RestartedWal(s: Node, step: Step)
    requires Base(s) && Enabled(s, step) && IsCrash(step)
    ensures WalInv(Do(s, step))
  {
    var t, n := Do(s, step), step.n;
    PrefixLinked(s.wal, n);
    PrefixFresh(s.wal, n);
    forall j: nat, i: nat | Alive(t.wal, n, j, i) ensures i < t.end {
      assert forall k :: j < k < n ==> t.wal[k] == s.wal[k];
      assert Alive(s.wal, n, j, i);
      PlayIsAlive(s.wal, n, i);
    }
  }

  lemma RestartedPresent(s: Node, step: Step)
    requires Base(s) && Enabled(s, step) && IsCrash(step)
    ensures Present(Do(s, step))
  {
    var t, n := Do(s, step), step.n;
    forall i | 0 <= i < t.end && !Purged(t.wal, n, i) ensures Has(t.wal, n, i) {
      PurgedOnPrefix(s.wal, t.wal, n, i);
      ReplayHasNoHole(s, n, step.end, i);
      var j: nat :| Alive(s.wal, n, j, i);
      assert Alive(t.wal, n, j, i);
    }
  }

  lemma RestartedFile(s: Node, step: Step)
    requires Base(s) && Enabled(s, step) && IsCrash(step)
    ensures FileInv(Do(s, step)) && PurgeBehindFile(Do(s, step))
  {
    var t := Do(s, step);
    assert |s.commits[s.safe]| <= |s.commits[step.c]|;
    assert t.store == t.hist[..t.applied];
    forall c | 0 <= c < |t.commits| ensures t.commits[c] <= t.hist {
      if step.ProcessCrash? { assert s.commits[c] <= s.commits[step.c]; }
    }
  }

  /** After any crash the log above the data file is in what is left of the WAL. */
  lemma TailLogged(s: Node, step: Step, i: nat)
    requires Base(s) && Enabled(s, step) && IsCrash(step)
    requires |s.commits[step.c]| <= i < |Do(s, step).hist|
    ensures Logged(Do(s, step).wal, Do(s, step).hist, step.n, i)
    ensures step.ProcessCrash? && AllSynced(s, step.n) && Durable(s) <= i ==>
      Logged(Do(s, step).wal, Do(s, step).hist, s.synced, i)
  {
    var t, n := Do(s, step), step.n;
    RestartedTail(s, step, i);
    PlayIsAlive(s.wal, n, i);
    var j: nat :| Alive(s.wal, n, j, i);
    assert Alive(t.wal, n, j, i);
  }

  /** So is what the data file holds past its last durable commit, in the synced part. */
  lemma FileLogged(s: Node, step: Step, i: nat)
    requires Inv(s) && Enabled(s, step) && step.ProcessCrash? && Durable(s) <= i < |s.commits[step.c]|
    ensures Logged(Do(s, step).wal, Do(s, step).hist, s.synced, i) && i < step.end
  {
    var t, n := Do(s, step), step.n;
    assert |s.commits[step.c]| <= |Last(s.commits)|;
    assert Logged(s.wal, s.hist, s.synced, i);
    var j: nat :| j < s.synced && Alive(s.wal, |s.wal|, j, i) && s.wal[j].e == s.hist[i];
    assert Alive(s.wal, n, j, i);
    assert Alive(t.wal, n, j, i);
    PlayIsAlive(s.wal, n, i);
    assert t.hist[i] == s.commits[step.c][i] == s.hist[i];
  }

  lemma CrashKeepsInv(s: Node, step: Step)
    requires Base(s) && Enabled(s, step) && step.Crash?
    ensures Base(Do(s, step)) && Honest(Do(s, step))
  {
    var t := Do(s, step);
    RestartedWal(s, step);
    RestartedPresent(s, step);
    RestartedFile(s, step);
    forall i | Durable(t) <= i < |t.hist| ensures Logged(t.wal, t.hist, step.n, i) { TailLogged(s, step, i); }
  }

  lemma ProcessCrashKeepsInv(s: Node, step: Step)
    requires Base(s) && Enabled(s, step) && step.ProcessCrash?
    ensures Base(Do(s, step)) && (Honest(s) && AllSynced(s, step.n) ==> Honest(Do(s, step)))
  {
    var t := Do(s, step);
    RestartedWal(s, step);
    RestartedPresent(s, step);
    RestartedFile(s, step);
    if Honest(s) && AllSynced(s, step.n) {
      assert Durable(t) == Durable(s) <= |s.commits[step.c]|;
      forall i | Durable(t) <= i < |t.hist|
        ensures Logged(t.wal, t.hist, |t.wal|, i) && Logged(t.wal, t.hist, t.synced, i)
      {
        if |s.commits[step.c]| <= i { TailLogged(s, step, i); } else { FileLogged(s, step, i); }
        LoggedMore(t.wal, t.hist, t.synced, |t.wal|, i);
      }
      if Durable(s) < |s.commits[step.c]| { FileLogged(s, step, |s.commits[step.c]| - 1); }
    }
  }

  lemma StepKeepsInv(s: Node, step: Step)
    requires Base(s) && Enabled(s, step)
    ensures Base(Do(s, step)) && (Honest(s) && Guarded(s, step) ==> Honest(Do(s, step)))
  {
    match step
    case Append(e) => AppendKeepsInv(s, e);
    case Sync(n) => SyncKeepsInv(s, n);
    case Truncate(i) => TruncateKeepsInv(s, i);
    case Apply(b) => ApplyKeepsInv(s, b);
    case ApplyReturn => ApplyReturnKeepsInv(s);
    case Install(log) => InstallKeepsInv(s, log);
    case Purge(p) => PurgeKeepsInv(s, p);
    case CheckpointSync(upto) => CheckpointSyncKeepsInv(s, upto);
    case CheckpointPurge => CheckpointPurgeKeepsInv(s);
    case Crash(_, _, _) => CrashKeepsInv(s, step);
    case ProcessCrash(_, _, _) => ProcessCrashKeepsInv(s, step);
    case _ => QuietStepKeepsInv(s, step);
  }

  /** Over every run, crashes of both kinds included, the WAL and the data file fit together; and what
      counts as durable is, if every process crash meets its condition. */
  lemma {:induction false} EveryRunKeepsInv(s: Node, steps: seq<Step>, t: Node)
    requires Base(s) && Reaches(s, steps, t)
    ensures Base(t) && (Honest(s) && GuardedRun(s, steps) ==> Honest(t))
    decreases |steps|
  {
    if steps != [] {
      StepKeepsInv(s, steps[0]);
      EveryRunKeepsInv(Do(s, steps[0]), steps[1..], t);
    }
  }

  lemma InitInv()
    ensures Inv(Init)
  {
  }

  lemma Reachable(steps: seq<Step>, s: Node)
    requires Reaches(Init, steps, s)
    ensures Base(s) && (GuardedRun(Init, steps) ==> Honest(s))
  {
    InitInv();
    EveryRunKeepsInv(Init, steps, s);
  }

  // ---------- What a crash keeps ----------

  /** An entry in the synced part of the WAL is replayed whatever else survives. */
  lemma SyncedEntryReplays(s: Node, n: nat, i: nat)
    requires WalInv(s) && s.synced <= n <= |s.wal| && Logged(s.wal, s.hist, s.synced, i)
    ensures i in Play(s.wal, n).entries && Play(s.wal, n).entries[i] == s.hist[i]
  {
    var j: nat :| j < s.synced && Alive(s.wal, |s.wal|, j, i) && s.wal[j].e == s.hist[i];
    assert Alive(s.wal, n, j, i);
    PlayIsAlive(s.wal, n, i);
  }

  /** What a restart makes of the entries it finds. */
  lemma RestartKeeps(s: Node, step: Step, i: nat)
    requires Enabled(s, step) && IsCrash(step)
    requires i < |s.commits[step.c]| || (i < step.end && i in Play(s.wal, step.n).entries)
    ensures i < |Do(s, step).hist|
    ensures Do(s, step).hist[i] ==
      if i < |s.commits[step.c]| then s.commits[step.c][i] else Play(s.wal, step.n).entries[i]
  {
  }

  lemma CrashKeepsEntry(s: Node, step: Step, i: nat)
    requires Inv(s) && Enabled(s, step) && IsCrash(step)
    requires i < |s.hist| && (i < s.acked || i < s.applied)
    ensures var t := Do(s, step); i < |t.hist| && t.hist[i] == s.hist[i]
  {
    assert |s.commits[s.safe]| <= |s.commits[step.c]| <= |Last(s.commits)|;
    if |s.commits[step.c]| <= i {
      assert Durable(s) <= i && i < s.acked;
      SyncedEntryReplays(s, step.n, i);
    }
    RestartKeeps(s, step, i);
  }

  /** Reads see `store`, and the data file's last commit has it. */
  ghost predicate Holds(s: Node, store: seq<Entry>) {
    s.commits != [] && Last(s.commits) == store && s.store == store
  }

  /** The next `n` entries applied, one after the other. */
  function Applies(n: nat): seq<Step> { seq(n, _ => Apply(true)) }

  lemma OneApplyFirst(t: Node, n: nat, u: Node)
    requires Enabled(t, Apply(true)) && Reaches(Do(t, Apply(true)), Applies(n), u)
    ensures Reaches(t, Applies(n + 1), u)
  {
    assert Applies(n + 1)[1..] == Applies(n);
  }

  /** The member is where its data file is. */
  ghost predicate AtFile(t: Node) { t.applied <= |t.hist| && Holds(t, t.hist[..t.applied]) }

  lemma ApplyStaysAtFile(t: Node)
    requires AtFile(t) && Enabled(t, Apply(true))
    ensures AtFile(Do(t, Apply(true)))
  {
    assert t.hist[..t.applied] + [t.hist[t.applied]] == t.hist[..t.applied + 1];
  }

  /** Re-applying is a run of ordinary applies. */
  lemma {:induction false} ReplayTo(t: Node, k: nat) returns (u: Node)
    requires AtFile(t) && t.applied <= k <= |t.hist| && (k == t.applied || k <= t.acked)
    ensures Reaches(t, Applies(k - t.applied), u) && Holds(u, t.hist[..k])
    decreases k - t.applied
  {
    if k == t.applied {
      u := t;
    } else {
      ApplyStaysAtFile(t);
      u := ReplayTo(Do(t, Apply(true)), k);
      OneApplyFirst(t, k - t.applied - 1, u);
    }
  }

  lemma EntryReplays(s: Node, n: nat, c: nat, i: nat)
    requires Inv(s) && s.synced <= n <= |s.wal| && s.safe <= c < |s.commits|
    requires |s.commits[c]| <= i < |s.hist| && (i < s.acked || i < s.applied)
    ensures i in Play(s.wal, n).entries && Play(s.wal, n).entries[i] == s.hist[i]
  {
    assert |s.commits[s.safe]| <= |s.commits[c]| <= |Last(s.commits)|;
    assert Logged(s.wal, s.hist, s.synced, i);
    SyncedEntryReplays(s, n, i);
  }

  lemma PurgeOnRecordIsBehind(s: Node, n: nat, c: nat)
    requires Base(s) && n <= |s.wal| && s.safe <= c < |s.commits|
    ensures Play(s.wal, n).purged <= |s.commits[c]|
  {
    PlayedPurge(s.wal, n);
    assert |s.commits[s.safe]| <= |s.commits[c]|;
  }

  /** The restarted log holds the prefix, and counts it as durable where the data file lacks it. */
  lemma CrashKeepsPrefix(s: Node, step: Step, k: nat)
    requires Inv(s) && Enabled(s, step) && IsCrash(step)
    requires |s.commits[step.c]| <= k <= |s.hist| && (k <= s.acked || k <= s.applied)
    ensures var t := Do(s, step);
            s.hist[..k] <= t.hist && (k == |s.commits[step.c]| || k <= t.acked)
  {
    var t := Do(s, step);
    forall i | 0 <= i < k ensures i < |t.hist| && t.hist[i] == s.hist[i] { CrashKeepsEntry(s, step, i); }
    if k != 0 { CrashKeepsEntry(s, step, k - 1); }
    if |s.commits[step.c]| < k { RestartedTail(s, step, k - 1); }
  }

  lemma RestartedAtFile(s: Node, step: Step)
    requires Base(s) && Enabled(s, step) && IsCrash(step)
    ensures AtFile(Do(s, step)) && Do(s, step).applied == |s.commits[step.c]|
  {
    RestartedFile(s, step);
  }

  lemma RestartReplays(s: Node, step: Step, k: nat) returns (u: Node)
    requires Inv(s) && Enabled(s, step) && IsCrash(step)
    requires |s.commits[step.c]| <= k <= |s.hist| && (k <= s.acked || k <= s.applied)
    ensures s.hist[..k] <= Do(s, step).hist
    ensures Reaches(Do(s, step), Applies(k - |s.commits[step.c]|), u) && Holds(u, s.hist[..k])
  {
    var t := Do(s, step);
    CrashKeepsPrefix(s, step, k);
    RestartedAtFile(s, step);
    u := ReplayTo(t, k);
    assert t.hist[..k] == s.hist[..k];
  }

  /** After any run whose process crashes meet their condition, and however the next crash falls: the
      purge on record is behind the data file, and everything from the data file's position up to what
      was applied or counted durable is in the replayed WAL. */
  lemma ReplayableWithoutGap(steps: seq<Step>, s: Node, n: nat, c: nat, end: nat)
    requires Reaches(Init, steps, s) && GuardedRun(Init, steps) && CanKeep(s, n, c, end)
    ensures Play(s.wal, n).purged <= |s.commits[c]|
    ensures forall i :: |s.commits[c]| <= i < |s.hist| && (i < s.acked || i < s.applied) ==>
      i in Play(s.wal, n).entries && Play(s.wal, n).entries[i] == s.hist[i]
  {
    Reachable(steps, s);
    PurgeOnRecordIsBehind(s, n, c);
    forall i | |s.commits[c]| <= i < |s.hist| && (i < s.acked || i < s.applied)
      ensures i in Play(s.wal, n).entries && Play(s.wal, n).entries[i] == s.hist[i]
    {
      EntryReplays(s, n, c, i);
    }
  }

  /** Then nothing applied or counted durable is lost in a crash of either kind, and applying again, one by
      one, just the entries the data file lacks brings the store to exactly what a member that never
      crashed holds. */
  lemma CrashThenReplayIsNeverCrashing(steps: seq<Step>, s: Node, step: Step, k: nat)
    requires Reaches(Init, steps, s) && GuardedRun(Init, steps) && Enabled(s, step) && IsCrash(step)
    requires |s.commits[step.c]| <= k <= |s.hist| && (k <= s.acked || k <= s.applied)
    ensures s.hist[..k] <= Do(s, step).hist
    ensures exists u :: Reaches(Do(s, step), Applies(k - |s.commits[step.c]|), u) && Holds(u, s.hist[..k])
  {
    Reachable(steps, s);
    var u := RestartReplays(s, step, k);
  }

  /** Every crash can happen: a replayed log always has an end. */
  lemma {:induction false} EndExists(purged: nat, entries: map<nat, Entry>) returns (end: nat)
    ensures IsEnd(Log(purged, entries), end)
    decreases |entries|
  {
    if entries == map[] {
      end := purged;
    } else {
      var k :| k in entries;
      var rest := entries - {k};
      assert entries.Keys == rest.Keys + {k};
      assert |rest.Keys| < |entries.Keys|;
      var e := EndExists(purged, rest);
      end := if rest == map[] then k + 1 else Max(e, k + 1);
    }
  }

  // ---------- When a process crash is not safe ----------

  /** Everything `t` counts as durable is in `u`. */
  ghost predicate KeepsCounted(t: Node, u: Node) {
    forall i: nat :: KeepsAt(t, u, i)
  }

  ghost predicate KeepsAt(t: Node, u: Node, i: nat) {
    i < t.acked && i < |t.hist| ==> i < |u.hist| && u.hist[i] == t.hist[i]
  }

  /** Every power cut right after leaves all that counts as durable. */
  ghost predicate PowerCutsKeep(t: Node) {
    forall m, c, end :: CanKeep(t, m, c, end) ==> KeepsCounted(t, Do(t, Crash(m, c, end)))
  }

  /** Cut off just before a record that put entry `i`, the log ends at `i` or below. */
  lemma CutBeforeRecord(s: Node, n: nat, j: nat, i: nat, end: nat)
    requires Base(s) && n <= |s.wal| && Alive(s.wal, n, j, i) && Durable(s) <= i && IsEnd(Play(s.wal, j), end)
    ensures end <= i
  {
    assert FreshAt(s.wal, j);
    if Play(s.wal, j).entries == map[] {
      PurgeOnRecordIsBehind(s, j, s.safe);
    } else {
      PlayIsAlive(s.wal, j, end - 1);
      var p: nat :| Alive(s.wal, j, p, end - 1);
    }
  }

  /** Where an entry the data file may lack comes from an unsynced record, a power cut loses it although
      it counts as durable. */
  lemma UnsyncedEntryCanBeLost(s: Node, step: Step, j: nat, i: nat) returns (cut: Step)
    requires Base(s) && Enabled(s, step) && step.ProcessCrash?
    requires s.synced <= j && Durable(s) <= i && Alive(s.wal, step.n, j, i)
    ensures var t := Do(s, step);
            cut.Crash? && Enabled(t, cut) && !KeepsAt(t, Do(t, cut), i)
  {
    var t := Do(s, step);
    PlayIsAlive(s.wal, step.n, i);
    PlayOnPrefix(s.wal, step.n, j);
    var end := EndExists(Play(s.wal, j).purged, Play(s.wal, j).entries);
    CutBeforeRecord(s, step.n, j, i, end);
    cut := Crash(j, s.safe, end);
    assert t.commits[s.safe] == s.commits[s.safe];
  }

  lemma PowerCutKeeps(t: Node, cut: Step)
    requires Inv(t) && Enabled(t, cut) && cut.Crash?
    ensures KeepsCounted(t, Do(t, cut))
  {
    forall i: nat ensures KeepsAt(t, Do(t, cut), i) {
      if i < t.acked && i < |t.hist| { CrashKeepsEntry(t, cut, i); }
    }
  }

  lemma HonestKeeps(t: Node)
    requires Inv(t)
    ensures PowerCutsKeep(t)
  {
    forall m, c, end | CanKeep(t, m, c, end) ensures KeepsCounted(t, Do(t, Crash(m, c, end))) {
      PowerCutKeeps(t, Crash(m, c, end));
    }
  }

  lemma UnsyncedLoses(s: Node, step: Step)
    requires Base(s) && Enabled(s, step) && step.ProcessCrash? && !AllSynced(s, step.n)
    ensures !PowerCutsKeep(Do(s, step))
  {
    var j: nat, i: nat :| s.synced <= j && Durable(s) <= i && Alive(s.wal, step.n, j, i);
    var cut := UnsyncedEntryCanBeLost(s, step, j, i);
    var t := Do(s, step);
    assert CanKeep(t, cut.n, cut.c, cut.end) && cut == Crash(cut.n, cut.c, cut.end);
    assert !KeepsCounted(t, Do(t, cut));
  }

  /** The condition is exact: after a run that met it so far, a process crash meets it if and only if
      every power cut after the reopen leaves all that then counts as durable. */
  lemma ProcessCrashExact(steps: seq<Step>, s: Node, step: Step)
    requires Reaches(Init, steps, s) && GuardedRun(Init, steps) && Enabled(s, step) && step.ProcessCrash?
    ensures s.safe < |s.commits| && (AllSynced(s, step.n) <==> PowerCutsKeep(Do(s, step)))
  {
    Reachable(steps, s);
    if AllSynced(s, step.n) {
      ProcessCrashKeepsInv(s, step);
      HonestKeeps(Do(s, step));
    } else {
      UnsyncedLoses(s, step);
    }
  }

  /** An entry written and never synced, read back after a process crash, counted durable, applied, and
      then lost in a power cut. */
  lemma AppliedThenLost(e: Entry)
    ensures var s := Do(Init, Append(e));
            && Enabled(s, ProcessCrash(1, 0, 1))
            && var t := Do(s, ProcessCrash(1, 0, 1));
               && Enabled(t, Apply(true))
               && var u := Do(t, Apply(true));
                  u.applied == 1 && Enabled(u, Crash(0, 0, 0)) && Do(u, Crash(0, 0, 0)).hist == []
  {
    var s := Do(Init, Append(e));
    assert Play(s.wal, 0) == Log(0, map[]);
    assert Play(s.wal, 1) == Log(0, map[0 := e]) && 0 in Play(s.wal, 1).entries;
    var t := Do(s, ProcessCrash(1, 0, 1));
    assert t.wal == s.wal;
  }

  // ---------- Dropping segments ----------

  /** After any run, records dropped under synced purges change no replay, whatever crash comes. */
  lemma DroppedSegmentsReplaySame(steps: seq<Step>, s: Node, m: nat, n: nat)
    requires Reaches(Init, steps, s) && Droppable(s.wal, m, s.synced) && s.synced <= n <= |s.wal|
    ensures Play(s.wal[m..], n - m) == Play(s.wal, n)
  {
    Reachable(steps, s);
    DroppableLater(s.wal, m, s.synced, n);
    DroppedReplaySame(s.wal, m, n);
  }

  // ---------- Where a purge is recorded out of order ----------

  /** The log the store reports at startup: nothing missing between the purge and the end. */
  predicate GapFree(l: Log, end: nat) { forall i :: l.purged <= i < end ==> i in l.entries }

  /** Recording a purge keeps a log gap-free exactly if it is not below the purge already on
      record, or no entry is left to be cut off from it. */
  lemma RecordedPurgeGapFree(l: Log, end: nat, p: nat, end': nat)
    requires IsEnd(l, end) && GapFree(l, end) && forall i :: i in l.entries ==> l.purged <= i
    requires IsEnd(Play1(l, PurgeRec(p)), end')
    ensures GapFree(Play1(l, PurgeRec(p)), end') <==> l.purged <= p + 1 || l.entries == map[]
  {
    var l' := Play1(l, PurgeRec(p));
    if l.entries != map[] && p + 1 < l.purged {
      assert end - 1 in l'.entries && p + 1 !in l'.entries;
    } else if l.entries != map[] && l'.entries != map[] {
      assert end' - 1 in l.entries;
    }
  }

  /** In every reachable state, what survives a crash replays to a gap-free log exactly if it has
      no entries or no purge among the surviving records is above the last one. */
  lemma GapFreeIff(steps: seq<Step>, s: Node, n: nat, end: nat)
    requires Reaches(Init, steps, s) && s.synced <= n <= |s.wal| && IsEnd(Play(s.wal, n), end)
    ensures GapFree(Play(s.wal, n), end) <==>
            Play(s.wal, n).entries == map[] || !Purged(s.wal, n, Play(s.wal, n).purged)
  {
    Reachable(steps, s);
    GapFreeFrom(s, n, end);
  }

  lemma GapFreeFrom(s: Node, n: nat, end: nat)
    requires WalInv(s) && n <= |s.wal| && IsEnd(Play(s.wal, n), end)
    ensures GapFree(Play(s.wal, n), end) <==>
            Play(s.wal, n).entries == map[] || !Purged(s.wal, n, Play(s.wal, n).purged)
  {
    var l := Play(s.wal, n);
    EntriesAbovePurge(s.wal, n);
    if l.entries != map[] {
      if Purged(s.wal, n, l.purged) {
        PurgedIsGone(s.wal, n, l.purged);
        assert l.purged <= end - 1;
      } else {
        forall i | l.purged <= i < end ensures i in l.entries {
          NotPurgedAbove(s.wal, n, l.purged, i);
          ReplayHasNoHole(s, n, end, i);
        }
      }
    }
  }

  lemma NotPurgedAbove(rs: seq<Rec>, n: nat, i: nat, i': nat)
    requires !Purged(rs, n, i) && i <= i'
    ensures !Purged(rs, n, i')
  {
  }

  lemma PurgedIsGone(rs: seq<Rec>, n: nat, i: nat)
    requires n <= |rs| && AbovePurges(rs) && Purged(rs, n, i)
    ensures i !in Play(rs, n).entries
  {
    PlayIsAlive(rs, n, i);
    var k :| 0 <= k < n && rs[k].PurgeRec? && i <= rs[k].i;
    forall j: nat ensures !Alive(rs, n, j, i) {
      if j < n {
        assert AbovePurgesAt(rs, j);
        assert Cuts(rs[k], i);
      }
    }
  }

  lemma Then(s: Node, step: Step, rest: seq<Step>, t: Node)
    requires Enabled(s, step) && Reaches(Do(s, step), rest, t)
    ensures Reaches(s, [step] + rest, t)
  {
    assert ([step] + rest)[1..] == rest;
  }

  /** A run that does it: the checkpointer reads a purge of 0, a snapshot at 2 is installed and its
      purge recorded while the checkpoint syncs, and then the checkpointer records its purge of 0. */
  lemma LatePurgeLeavesGap(e: Entry) returns (steps: seq<Step>, s: Node)
    ensures Reaches(Init, steps, s) && s.synced == |s.wal|
    ensures IsEnd(Play(s.wal, |s.wal|), 4) && !GapFree(Play(s.wal, |s.wal|), 4)
  {
    var s1, r1 := LateFirstHalf(e);
    var s2, r2 := LateSecondHalf(e, s1);
    ReachesJoin(Init, r1, s1, r2, s2);
    s, steps := s2, r1 + r2;
    LatePurgeReplay(e, s.wal);
  }

  lemma {:induction false} ReachesJoin(s: Node, r1: seq<Step>, t: Node, r2: seq<Step>, u: Node)
    requires Reaches(s, r1, t) && Reaches(t, r2, u)
    ensures Reaches(s, r1 + r2, u)
    decreases |r1|
  {
    if r1 == [] {
      assert r1 + r2 == r2;
    } else {
      ReachesJoin(Do(s, r1[0]), r1[1..], t, r2, u);
      assert (r1 + r2)[1..] == r1[1..] + r2;
    }
  }

  lemma Two(s: Node, a: Step, b: Step)
    requires Enabled(s, a) && Enabled(Do(s, a), b)
    ensures Reaches(s, [a, b], Do(Do(s, a), b))
  {
    var t := Do(Do(s, a), b);
    assert Reaches(t, [], t);
    Then(Do(s, a), b, [], t);
    Then(s, a, [b], t);
    assert [a] + [b] == [a, b] && [b] + [] == [b];
  }

  lemma LateStart(e: Entry) returns (s: Node)
    ensures Reaches(Init, [Append(e), Sync(1)], s)
    ensures s == Node([e], 1, [EntryRec(0, e)], 1, 0, 0, 1, [[]], 0, [], 0, 0, None, Idle)
  {
    var s1 := Do(Init, Append(e));
    assert Acks(s1.wal, 0, 1, 0) == Acks(s1.wal, 1, 1, 1) == 1;
    Two(Init, Append(e), Sync(1));
    s := Do(s1, Sync(1));
  }

  lemma LateApply(e: Entry, s0: Node) returns (s: Node)
    requires s0 == Node([e], 1, [EntryRec(0, e)], 1, 0, 0, 1, [[]], 0, [], 0, 0, None, Idle)
    ensures Reaches(s0, [Apply(true), ApplyReturn], s)
    ensures s == Node([e], 1, [EntryRec(0, e)], 1, 0, 0, 1, [[], [e], [e]], 0, [e], 1, 1, None, Idle)
  {
    assert s0.hist[..1] == [e];
    Two(s0, Apply(true), ApplyReturn);
    s := Do(Do(s0, Apply(true)), ApplyReturn);
    assert s.store == [e];
    assert s.commits == [[], [e], [e]];
  }

  /** Up to the checkpointer having read the purge of 0. */
  lemma LateFirstHalf(e: Entry) returns (s: Node, r: seq<Step>)
    ensures Reaches(Init, r, s)
    ensures s == Node([e], 1, [EntryRec(0, e)], 1, 0, 0, 1, [[], [e], [e]], 0, [e], 1, 1, Some(0), Syncing(1, 2, Some(0)))
  {
    var s1 := LateStart(e);
    var s2 := LateApply(e, s1);
    Two(s2, Purge(0), CheckpointBegin);
    s := Do(Do(s2, Purge(0)), CheckpointBegin);
    ReachesJoin(s1, [Apply(true), ApplyReturn], s2, [Purge(0), CheckpointBegin], s);
    r := [Apply(true), ApplyReturn] + [Purge(0), CheckpointBegin];
    ReachesJoin(Init, [Append(e), Sync(1)], s1, r, s);
    r := [Append(e), Sync(1)] + r;
  }

  /** A snapshot at 2 is installed, its purge recorded and synced, and an entry appended after it. */
  lemma LateMiddle(e: Entry, s0: Node) returns (s: Node, r: seq<Step>)
    requires s0 == Node([e], 1, [EntryRec(0, e)], 1, 0, 0, 1, [[], [e], [e]], 0, [e], 1, 1, Some(0), Syncing(1, 2, Some(0)))
    ensures Reaches(s0, r, s)
    ensures s.wal == [EntryRec(0, e), PurgeRec(2), EntryRec(3, e)] && s.synced == 2
    ensures s.ckpt == Syncing(1, 2, Some(0)) && |s.commits| == 4 && s.safe <= 3 && s.boot == 0
  {
    var log := [e, e, e];
    assert s0.hist[..1] == log[..1];
    Two(s0, Install(log), Purge(2));
    var s2 := Do(Do(s0, Install(log)), Purge(2));
    assert s2.wal == [EntryRec(0, e), PurgeRec(2)] && s2.hist == log && s2.end == 3;
    Two(s2, Sync(2), Append(e));
    s := Do(Do(s2, Sync(2)), Append(e));
    ReachesJoin(s0, [Install(log), Purge(2)], s2, [Sync(2), Append(e)], s);
    r := [Install(log), Purge(2)] + [Sync(2), Append(e)];
  }

  lemma LateSecondHalf(e: Entry, s0: Node) returns (s: Node, r: seq<Step>)
    requires s0 == Node([e], 1, [EntryRec(0, e)], 1, 0, 0, 1, [[], [e], [e]], 0, [e], 1, 1, Some(0), Syncing(1, 2, Some(0)))
    ensures Reaches(s0, r, s)
    ensures s.wal == [EntryRec(0, e), PurgeRec(2), EntryRec(3, e), PurgeRec(0)] && s.synced == 4
  {
    var s1, start := LateMiddle(e, s0);
    Two(s1, CheckpointSync(3), CheckpointPurge);
    var s2 := Do(Do(s1, CheckpointSync(3)), CheckpointPurge);
    s := Do(s2, Sync(4));
    assert Reaches(s, [], s);
    Then(s2, Sync(4), [], s);
    ReachesJoin(s1, [CheckpointSync(3), CheckpointPurge], s2, [Sync(4)] + [], s);
    r := [CheckpointSync(3), CheckpointPurge] + ([Sync(4)] + []);
    ReachesJoin(s0, start, s1, r, s);
    r := start + r;
  }

  lemma LatePurgeReplay(e: Entry, wal: seq<Rec>)
    requires wal == [EntryRec(0, e), PurgeRec(2), EntryRec(3, e), PurgeRec(0)]
    ensures IsEnd(Play(wal, 4), 4) && !GapFree(Play(wal, 4), 4)
  {
    assert Play(wal, 1) == Log(0, map[0 := e]);
    assert Play(wal, 2) == Log(3, map[]);
    assert Play(wal, 3) == Log(3, map[3 := e]);
    assert Play(wal, 4) == Log(1, map[3 := e]);
    assert 1 !in Play(wal, 4).entries && 3 in Play(wal, 4).entries;
  }
}
