/** The WAL's writer thread: commands are taken in groups, appended in order,
    synced once, and answered together. Whatever append or fdatasync fails, and
    wherever, is given to each group as an outcome. */
module WalWriter {

  import opened Common

  /** A queued command over records of type `T`. The store's callers make three kinds: an append and a
      synced write ask for a sync and an answer, a saved commit index for neither. */
  datatype Cmd<T> = Cmd(records: seq<T>, sync: bool, dropUpto: Option<nat>, answered: bool)

  /** Only synced commands are answered or drop segments. */
  predicate WellMade<T>(c: Cmd<T>) { (c.answered ==> c.sync) && (c.dropUpto.Some? ==> c.sync) }

  /** All records of the first `n` commands, in order. */
  function Records<T>(cmds: seq<Cmd<T>>, n: nat): seq<T>
    requires n <= |cmds|
  {
    if n == 0 then [] else Records(cmds, n - 1) + cmds[n - 1].records
  }

  lemma {:induction false} RecordsJoin<T>(a: seq<Cmd<T>>, b: seq<Cmd<T>>, n: nat)
    requires n <= |a| + |b|
    ensures Records(a + b, n) == if n <= |a| then Records(a, n) else Records(a, |a|) + Records(b, n - |a|)
  {
    if n > 0 { RecordsJoin(a, b, n - 1); }
  }

  lemma {:induction false} RecordsGrow<T>(cmds: seq<Cmd<T>>, m: nat, n: nat)
    requires m <= n <= |cmds|
    ensures Records(cmds, m) <= Records(cmds, n)
  {
    if m < n { RecordsGrow(cmds, m, n - 1); }
  }

  // ---------- What the writer keeps ----------

  /** The file holds the commands' records without a gap: all of them until something failed. */
  ghost predicate FileInv<T>(taken: seq<Cmd<T>>, wal: seq<T>, synced: nat, failed: bool) {
    && wal <= Records(taken, |taken|) && synced <= |wal|
    && (!failed ==> wal == Records(taken, |taken|))
  }

  /** Every Ok comes before every failure, and nothing is Ok after one. */
  ghost predicate OkInv(ok: seq<bool>, failed: bool) {
    && (forall i, j :: 0 <= i < j < |ok| && ok[j] ==> ok[i])
    && (!failed ==> forall i :: 0 <= i < |ok| ==> ok[i])
  }

  /** The records of a command told Ok that asked for a sync are synced. */
  ghost predicate SyncInv<T>(taken: seq<Cmd<T>>, ok: seq<bool>, synced: nat) {
    forall i :: 0 <= i < |taken| && i < |ok| ==> SyncedAt(taken, ok, synced, i)
  }

  ghost predicate SyncedAt<T>(taken: seq<Cmd<T>>, ok: seq<bool>, synced: nat, i: nat)
    requires i < |taken| && i < |ok|
  {
    ok[i] && taken[i].sync ==> |Records(taken, i + 1)| <= synced
  }

  /** A command that drops up to `d` was told Ok, so its purge record is synced. */
  ghost predicate PurgeSynced<T>(taken: seq<Cmd<T>>, ok: seq<bool>, d: nat) {
    exists i :: 0 <= i < |taken| && i < |ok| && ok[i] && taken[i].sync && taken[i].dropUpto == Some(d)
  }

  function Told(n: nat, good: bool): seq<bool> { seq(n, _ => good) }

  lemma FileMore<T>(taken: seq<Cmd<T>>, wal: seq<T>, synced: nat, failed: bool,
                    cmds: seq<Cmd<T>>, wal': seq<T>, synced': nat, failed': bool)
    requires FileInv(taken, wal, synced, failed) && synced' <= |wal'|
    requires failed ==> failed' && wal' == wal
    requires !failed ==> wal' <= wal + Records(cmds, |cmds|)
    requires !failed' ==> wal' == wal + Records(cmds, |cmds|)
    ensures FileInv(taken + cmds, wal', synced', failed')
    ensures Records(taken + cmds, |taken + cmds|) == Records(taken, |taken|) + Records(cmds, |cmds|)
  {
    AllRecords(taken, cmds);
  }

  lemma AllRecords<T>(taken: seq<Cmd<T>>, cmds: seq<Cmd<T>>)
    ensures Records(taken + cmds, |taken + cmds|) == Records(taken, |taken|) + Records(cmds, |cmds|)
  {
    if cmds == [] {
      assert taken + cmds == taken;
      assert Records(taken, |taken|) + [] == Records(taken, |taken|);
    } else {
      RecordsJoin(taken, cmds, |taken + cmds|);
    }
  }

  lemma OkMore(ok: seq<bool>, failed: bool, n: nat, failed': bool)
    requires OkInv(ok, failed) && (failed ==> failed')
    ensures OkInv(ok + Told(n, !failed'), failed')
  {
  }

  lemma SyncMore<T>(taken: seq<Cmd<T>>, ok: seq<bool>, synced: nat, cmds: seq<Cmd<T>>, good: bool, synced': nat)
    requires SyncInv(taken, ok, synced) && |ok| == |taken| && synced <= synced'
    requires good && (exists i :: 0 <= i < |cmds| && cmds[i].sync) ==> synced' >= |Records(taken + cmds, |taken + cmds|)|
    ensures SyncInv(taken + cmds, ok + Told(|cmds|, good), synced')
  {
    var all, told := taken + cmds, ok + Told(|cmds|, good);
    forall i | 0 <= i < |all| && i < |told| ensures SyncedAt(all, told, synced', i) {
      if i < |taken| {
        assert SyncedAt(taken, ok, synced, i);
        RecordsJoin(taken, cmds, i + 1);
      } else {
        assert all[i] == cmds[i - |taken|];
        RecordsGrow(all, i + 1, |all|);
      }
    }
  }

  lemma DropsMore<T>(taken: seq<Cmd<T>>, ok: seq<bool>, dropped: seq<nat>, cmds: seq<Cmd<T>>, told: seq<bool>)
    requires |ok| == |taken| && forall d <- dropped :: PurgeSynced(taken, ok, d)
    ensures forall d <- dropped :: PurgeSynced(taken + cmds, ok + told, d)
  {
    forall d <- dropped ensures PurgeSynced(taken + cmds, ok + told, d) {
      var i :| 0 <= i < |taken| && ok[i] && taken[i].sync && taken[i].dropUpto == Some(d);
      assert (taken + cmds)[i] == taken[i] && (ok + told)[i];
    }
  }

  /** The drop a group asked for and was told Ok. */
  lemma DropsOne<T>(taken: seq<Cmd<T>>, ok: seq<bool>, cmds: seq<Cmd<T>>, d: nat)
    requires |ok| == |taken| && forall i :: 0 <= i < |cmds| ==> WellMade(cmds[i])
    requires exists i :: 0 <= i < |cmds| && cmds[i].dropUpto == Some(d)
    ensures PurgeSynced(taken + cmds, ok + Told(|cmds|, true), d)
  {
    var i :| 0 <= i < |cmds| && cmds[i].dropUpto == Some(d);
    assert (taken + cmds)[|taken| + i] == cmds[i] && WellMade(cmds[i]);
    assert (ok + Told(|cmds|, true))[|taken| + i];
  }

  function AsSeq<T>(x: Option<T>): seq<T> { if x.Some? then [x.value] else [] }

  /** What lands is a part of the records from their start: all of them unless an append fails. */
  lemma LandingIsPrefix<T>(cmds: seq<Cmd<T>>, fate: Fate)
    ensures Landing(cmds, fate) <= Records(cmds, |cmds|)
    ensures !AppendFails(fate, |cmds|) ==> Landing(cmds, fate) == Records(cmds, |cmds|)
  {
    if AppendFails(fate, |cmds|) { RecordsGrow(cmds, fate.failsAt.value + 1, |cmds|); }
  }

  /** What the file system does to one group: which append fails, how much of it lands, and whether the
      sync works. */
  datatype Fate = Fate(failsAt: Option<nat>, lands: nat, syncs: bool)

  /** One of the `n` appends of a group fails. */
  predicate AppendFails(fate: Fate, n: nat) { fate.failsAt.Some? && fate.failsAt.value < n }

  ghost predicate AnySync<T>(cmds: seq<Cmd<T>>) { exists i :: 0 <= i < |cmds| && cmds[i].sync }

  /** What a group puts in the file: all its records, or those before the append that fails and as many of
      that one's as land. */
  function Landing<T>(cmds: seq<Cmd<T>>, fate: Fate): seq<T> {
    if AppendFails(fate, |cmds|) then
      var failing := cmds[fate.failsAt.value].records;
      Records(cmds, fate.failsAt.value) + failing[..if fate.lands < |failing| then fate.lands else |failing|]
    else Records(cmds, |cmds|)
  }

  /** The highest index any of the first `n` commands wants dropped, if any does. */
  ghost predicate HighestDrop<T>(cmds: seq<Cmd<T>>, n: nat, drop: Option<nat>) {
    && (forall i :: 0 <= i < n && i < |cmds| && cmds[i].dropUpto.Some? ==> drop.Some? && cmds[i].dropUpto.value <= drop.value)
    && (drop.Some? ==> exists i :: 0 <= i < n && i < |cmds| && cmds[i].dropUpto == drop)
  }

  ghost predicate ValidWith<T>(
      taken: seq<Cmd<T>>, ok: seq<bool>, dropped: seq<nat>, wal: seq<T>, synced: nat, failed: bool)
  {
    && |ok| == |taken| && (forall i :: 0 <= i < |taken| ==> WellMade(taken[i]))
    && FileInv(taken, wal, synced, failed)
    && OkInv(ok, failed)
    && SyncInv(taken, ok, synced)
    && (forall d <- dropped :: PurgeSynced(taken, ok, d))
  }

  /** One more group, with what the disk made of it. */
  lemma GroupKeeps<T>(
      taken: seq<Cmd<T>>, ok: seq<bool>, dropped: seq<nat>, wal: seq<T>, synced: nat, failed: bool,
      cmds: seq<Cmd<T>>, fate: Fate, wal': seq<T>, synced': nat, failed': bool, drop: Option<nat>)
    requires ValidWith(taken, ok, dropped, wal, synced, failed) && forall i :: 0 <= i < |cmds| ==> WellMade(cmds[i])
    requires failed ==> failed'
    requires wal' == if failed then wal else wal + Landing(cmds, fate)
    requires !failed' ==> !AppendFails(fate, |cmds|) && HighestDrop(cmds, |cmds|, drop)
    requires synced' == if !failed' && AnySync(cmds) then |wal'| else synced
    ensures ValidWith(taken + cmds, ok + Told(|cmds|, !failed'), if failed' then dropped else dropped + AsSeq(drop),
                      wal', synced', failed')
  {
    LandingIsPrefix(cmds, fate);
    FileMore(taken, wal, synced, failed, cmds, wal', synced', failed');
    OkMore(ok, failed, |cmds|, failed');
    SyncMore(taken, ok, synced, cmds, !failed', synced');
    DropsMore(taken, ok, dropped, cmds, Told(|cmds|, !failed'));
    if !failed' && drop.Some? { DropsOne(taken, ok, cmds, drop.value); }
  }

  class Writer<T> {
    var failed: bool
    /** The records in the file, and how many of them are synced. */
    var wal: seq<T>
    var synced: nat
    /** Every command taken and what it was told. */
    var taken: seq<Cmd<T>>
    var ok: seq<bool>
    /** Segments dropped, by the index they were dropped up to. */
    var dropped: seq<nat>

    ghost predicate Valid()
      reads this
    {
      ValidWith(taken, ok, dropped, wal, synced, failed)
    }

    constructor ()
      ensures Valid() && taken == [] && !failed
    {
      failed, wal, synced, taken, ok, dropped := false, [], 0, [], [], [];
    }

    /** Append the group's records in order, up to the first failure. */
    method AppendAll(cmds: seq<Cmd<T>>, fate: Fate) returns (sync: bool, drop: Option<nat>)
      requires !failed
      modifies this`wal, this`failed
      ensures failed == AppendFails(fate, |cmds|) && wal == old(wal) + Landing(cmds, fate)
      ensures !failed ==> (sync <==> AnySync(cmds)) && HighestDrop(cmds, |cmds|, drop)
    {
      sync, drop := false, None;
      var i := 0;
      while i < |cmds|
        invariant i <= |cmds| && !failed && wal == old(wal) + Records(cmds, i)
        invariant fate.failsAt.Some? ==> fate.failsAt.value >= i
        invariant (sync <==> exists k :: 0 <= k < i && cmds[k].sync) && HighestDrop(cmds, i, drop)
      {
        if fate.failsAt == Some(i) {
          var records := cmds[i].records;
          wal := wal + records[..if fate.lands < |records| then fate.lands else |records|];
          failed := true;
          return;
        }
        wal, sync := wal + cmds[i].records, sync || cmds[i].sync;
        if cmds[i].dropUpto.Some? {
          var d := cmds[i].dropUpto.value;
          if drop.None? || drop.value < d { drop := Some(d); }
        }
        i := i + 1;
      }
    }

    /** Append the group and sync it once, if any command asks and nothing has failed. */
    method Write(cmds: seq<Cmd<T>>, fate: Fate) returns (drop: Option<nat>)
      requires synced <= |wal|
      modifies this`wal, this`synced, this`failed
      ensures failed == (old(failed) || AppendFails(fate, |cmds|) || (AnySync(cmds) && !fate.syncs))
      ensures wal == if old(failed) then old(wal) else old(wal) + Landing(cmds, fate)
      ensures synced == if !failed && AnySync(cmds) then |wal| else old(synced)
      ensures !failed ==> HighestDrop(cmds, |cmds|, drop)
    {
      drop := None;
      if !failed {
        var sync;
        sync, drop := AppendAll(cmds, fate);
        if !failed && sync {
          if fate.syncs { synced := |wal|; } else { failed := true; }
        }
      }
    }

    /** One turn of the writer's loop. */
    method Group(cmds: seq<Cmd<T>>, fate: Fate)
      requires Valid() && forall i :: 0 <= i < |cmds| ==> WellMade(cmds[i])
      modifies this
      ensures Valid() && taken == old(taken) + cmds
      ensures old(ok) <= ok && forall i :: |old(ok)| <= i < |ok| ==> ok[i] == !failed
      ensures failed <==>
        || old(failed)
        || (fate.failsAt.Some? && fate.failsAt.value < |cmds|)
        || (!fate.syncs && exists i :: 0 <= i < |cmds| && cmds[i].sync)
      ensures wal == if old(failed) then old(wal) else old(wal) + Landing(cmds, fate)
      ensures synced == if !failed && AnySync(cmds) then |wal| else old(synced)
      ensures failed ==> dropped == old(dropped)
      ensures !failed ==> exists drop :: HighestDrop(cmds, |cmds|, drop) && dropped == old(dropped) + AsSeq(drop)
    {
      var drop := Write(cmds, fate);
      GroupKeeps(taken, ok, dropped, old(wal), old(synced), old(failed), cmds, fate, wal, synced, failed, drop);
      if !failed { dropped := dropped + AsSeq(drop); }
      taken := taken + cmds;
      ok := ok + Told(|cmds|, !failed);
    }
  }
}
