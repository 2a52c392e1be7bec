/** The raft log's durable form as the log store relies on it: a sequence
    of records, and what opening the WAL makes of them when it replays them. */
module Wal {

  datatype Entry = Entry(term: nat, payload: seq<nat>)

  datatype Rec =
    | EntryRec(i: nat, e: Entry)
    | TruncateRec(i: nat)
    | PurgeRec(i: nat)

  /** A replayed log. `purged` is the last purged index plus one (0: none). */
  datatype Log = Log(purged: nat, entries: map<nat, Entry>)

  function Play1(l: Log, r: Rec): Log {
    match r
    case EntryRec(i, e) =>
      var kept := map k | k in l.entries && k < i :: l.entries[k];
      if l.purged <= i then Log(l.purged, kept[i := e]) else Log(l.purged, kept)
    case TruncateRec(i) => Log(l.purged, map k | k in l.entries && k < i :: l.entries[k])
    case PurgeRec(i) => Log(i + 1, map k | k in l.entries && i < k :: l.entries[k])
  }

  /** The log the first `n` records replay to. */
  function Play(rs: seq<Rec>, n: nat): Log
    requires n <= |rs|
  {
    if n == 0 then Log(0, map[]) else Play1(Play(rs, n - 1), rs[n - 1])
  }

  /** `r` removes the entry at `i`, or replaces it. */
  predicate Cuts(r: Rec, i: nat) {
    match r
    case EntryRec(k, _) => k <= i
    case TruncateRec(k) => k <= i
    case PurgeRec(k) => i <= k
  }

  /** Among the first `n` records, `j` put the entry at `i` and nothing after it removed it. */
  ghost predicate Alive(rs: seq<Rec>, n: nat, j: nat, i: nat) {
    && j < n <= |rs| && rs[j].EntryRec? && rs[j].i == i
    && forall k :: j < k < n ==> !Cuts(rs[k], i)
  }

  ghost predicate Has(rs: seq<Rec>, n: nat, i: nat) {
    exists j: nat :: Alive(rs, n, j, i)
  }

  ghost predicate Purged(rs: seq<Rec>, n: nat, i: nat) {
    exists k :: 0 <= k < n && k < |rs| && rs[k].PurgeRec? && i <= rs[k].i
  }

  /** No entry was ever written at an index already purged. */
  ghost predicate AbovePurges(rs: seq<Rec>) {
    forall j :: 0 <= j < |rs| ==> AbovePurgesAt(rs, j)
  }

  ghost predicate AbovePurgesAt(rs: seq<Rec>, j: nat)
    requires j < |rs|
  {
    rs[j].EntryRec? ==> !Purged(rs, j, rs[j].i)
  }

  /** Every entry was written right after the one before it, or at the purge. */
  ghost predicate Linked(rs: seq<Rec>) {
    forall j :: 0 <= j < |rs| ==> LinkedAt(rs, j)
  }

  ghost predicate LinkedAt(rs: seq<Rec>, j: nat)
    requires j < |rs|
  {
    rs[j].EntryRec? && rs[j].i != 0 ==> Purged(rs, j, rs[j].i - 1) || Has(rs, j, rs[j].i - 1)
  }

  /** Every entry was written above everything the log then held. */
  ghost predicate Fresh(rs: seq<Rec>) {
    forall j :: 0 <= j < |rs| ==> FreshAt(rs, j)
  }

  ghost predicate FreshAt(rs: seq<Rec>, j: nat)
    requires j < |rs|
  {
    rs[j].EntryRec? ==> HoldsBelow(rs, j, rs[j].i)
  }

  /** The first `n` records leave no entry at `end` or above. */
  ghost predicate HoldsBelow(rs: seq<Rec>, n: nat, end: nat) {
    forall j: nat, i: nat :: Alive(rs, n, j, i) ==> i < end
  }

  /** The purge a replay reports is the last purge record's. */
  lemma {:induction false} PlayedPurge(rs: seq<Rec>, n: nat)
    requires n <= |rs|
    ensures Play(rs, n).purged == 0 <==> forall k :: 0 <= k < n ==> !rs[k].PurgeRec?
    ensures Play(rs, n).purged != 0 ==> exists k: nat :: LastPurge(rs, n, k) && Play(rs, n).purged == rs[k].i + 1
    ensures Play(rs, n).purged == 0 || Purged(rs, n, Play(rs, n).purged - 1)
  {
    if n != 0 {
      PlayedPurge(rs, n - 1);
      if rs[n - 1].PurgeRec? {
        assert LastPurge(rs, n, n - 1);
      } else if Play(rs, n).purged != 0 {
        var k: nat :| LastPurge(rs, n - 1, k) && Play(rs, n - 1).purged == rs[k].i + 1;
        assert LastPurge(rs, n, k);
      }
    }
  }

  ghost predicate LastPurge(rs: seq<Rec>, n: nat, k: nat) {
    k < n <= |rs| && rs[k].PurgeRec? && forall j :: k < j < n ==> !rs[j].PurgeRec?
  }

  /** Replay keeps exactly the entries whose record is alive. */
  lemma {:induction false} PlayIsAlive(rs: seq<Rec>, n: nat, i: nat)
    requires n <= |rs| && AbovePurges(rs)
    ensures i in Play(rs, n).entries <==> Has(rs, n, i)
    ensures forall j: nat :: Alive(rs, n, j, i) ==>
      i in Play(rs, n).entries && Play(rs, n).entries[i] == rs[j].e
  {
    if n == 0 { return; }
    var r := rs[n - 1];
    PlayIsAlive(rs, n - 1, i);
    PlayedPurge(rs, n - 1);
    assert AbovePurgesAt(rs, n - 1);
    forall j: nat | Alive(rs, n, j, i)
      ensures i in Play(rs, n).entries && Play(rs, n).entries[i] == rs[j].e
    {
      if j < n - 1 {
        assert !Cuts(rs[n - 1], i);
        assert Alive(rs, n - 1, j, i);
      }
    }
    if i in Play(rs, n).entries {
      if r.EntryRec? && r.i == i {
        assert Alive(rs, n, n - 1, i);
      } else {
        assert i in Play(rs, n - 1).entries;
        var j: nat :| Alive(rs, n - 1, j, i);
        assert Alive(rs, n, j, i);
      }
    }
  }

  /** A log that holds an entry holds every one below it down to the highest purge. */
  lemma {:induction false} NoHoleBelow(rs: seq<Rec>, n: nat, j: nat, top: nat, i: nat)
    requires Linked(rs) && Alive(rs, n, j, top) && i <= top && !Purged(rs, n, i)
    ensures Has(rs, n, i)
    decreases top - i
  {
    if i < top {
      assert LinkedAt(rs, j);
      if Purged(rs, j, top - 1) {
        assert Purged(rs, n, i);
      } else {
        var p: nat :| Alive(rs, j, p, top - 1);
        forall k | p < k < n ensures !Cuts(rs[k], top - 1) {
          if j < k { assert !Cuts(rs[k], top); }
        }
        assert Alive(rs, n, p, top - 1);
        NoHoleBelow(rs, n, p, top - 1, i);
      }
    }
  }

  /** Adding a record leaves an entry alive exactly if it does not cut it. */
  lemma AliveStep(rs: seq<Rec>, r: Rec, j: nat, i: nat)
    requires Alive(rs, |rs|, j, i) && !Cuts(r, i)
    ensures Alive(rs + [r], |rs| + 1, j, i)
  {
  }

  /** Whether an index is purged depends only on the first `n` records. */
  lemma PurgedOnPrefix(rs: seq<Rec>, rs': seq<Rec>, n: nat, i: nat)
    requires n <= |rs| && n <= |rs'| && rs[..n] == rs'[..n]
    ensures Purged(rs, n, i) <==> Purged(rs', n, i)
  {
    assert forall k :: 0 <= k < n ==> rs[..n][k] == rs[k] && rs'[..n][k] == rs'[k];
  }

  lemma AbovePurgesStep(rs: seq<Rec>, r: Rec)
    requires AbovePurges(rs) && (r.EntryRec? ==> !Purged(rs, |rs|, r.i))
    ensures AbovePurges(rs + [r])
  {
    var rs' := rs + [r];
    forall j | 0 <= j < |rs'| ensures AbovePurgesAt(rs', j) {
      assert rs'[..j] == rs[..j];
      if rs'[j].EntryRec? { PurgedOnPrefix(rs, rs', j, rs'[j].i); }
      assert j < |rs| ==> AbovePurgesAt(rs, j);
    }
  }

  lemma LinkedStep(rs: seq<Rec>, r: Rec)
    requires Linked(rs)
    requires r.EntryRec? ==> r.i == 0 || Purged(rs, |rs|, r.i - 1) || Has(rs, |rs|, r.i - 1)
    ensures Linked(rs + [r])
  {
    var rs' := rs + [r];
    forall j | 0 <= j < |rs'| ensures LinkedAt(rs', j) {
      if rs'[j].EntryRec? && rs'[j].i != 0 {
        var i := rs'[j].i - 1;
        assert j < |rs| ==> LinkedAt(rs, j);
        if Purged(rs, j, i) {
          var k :| 0 <= k < j && k < |rs| && rs[k].PurgeRec? && i <= rs[k].i;
          assert rs'[k] == rs[k];
        } else {
          var p: nat :| Alive(rs, j, p, i);
          assert Alive(rs', j, p, i);
        }
      }
    }
  }

  lemma FreshStep(rs: seq<Rec>, r: Rec)
    requires Fresh(rs) && (r.EntryRec? ==> HoldsBelow(rs, |rs|, r.i))
    ensures Fresh(rs + [r])
  {
    var rs' := rs + [r];
    forall j | 0 <= j < |rs'| ensures FreshAt(rs', j) {
      assert j < |rs| ==> FreshAt(rs, j);
      forall p: nat, i: nat | Alive(rs', j, p, i) && rs'[j].EntryRec? ensures i < rs'[j].i {
        assert forall k :: p < k < j ==> rs'[k] == rs[k];
        assert Alive(rs, j, p, i);
      }
    }
  }

  lemma PrefixFresh(rs: seq<Rec>, n: nat)
    requires n <= |rs| && Fresh(rs)
    ensures Fresh(rs[..n])
  {
    forall j | 0 <= j < n ensures FreshAt(rs[..n], j) {
      assert FreshAt(rs, j);
      forall p: nat, i: nat | Alive(rs[..n], j, p, i) && rs[j].EntryRec? ensures i < rs[j].i {
        assert forall k :: p < k < j ==> rs[..n][k] == rs[k];
        assert Alive(rs, j, p, i);
      }
    }
  }

  lemma PrefixLinked(rs: seq<Rec>, n: nat)
    requires n <= |rs| && Linked(rs) && AbovePurges(rs)
    ensures Linked(rs[..n]) && AbovePurges(rs[..n])
  {
    var p := rs[..n];
    forall j | 0 <= j < n ensures AbovePurgesAt(p, j) {
      assert AbovePurgesAt(rs, j) && p[..j] == rs[..j];
      if p[j].EntryRec? { PurgedOnPrefix(rs, p, j, p[j].i); }
    }
    forall j | 0 <= j < n ensures LinkedAt(p, j) {
      if p[j].EntryRec? && p[j].i != 0 {
        var i := p[j].i - 1;
        assert LinkedAt(rs, j);
        if Purged(rs, j, i) {
          var k :| 0 <= k < j && rs[k].PurgeRec? && i <= rs[k].i;
          assert p[k] == rs[k];
        } else {
          var q: nat :| Alive(rs, j, q, i);
          assert Alive(p, j, q, i);
        }
      }
    }
  }

  lemma {:induction false} PlayOnPrefix(rs: seq<Rec>, n: nat, m: nat)
    requires m <= n <= |rs|
    ensures Play(rs[..n], m) == Play(rs, m)
  {
    if m != 0 { PlayOnPrefix(rs, n, m - 1); }
  }

  lemma {:induction false} EntriesAbovePurge(rs: seq<Rec>, n: nat)
    requires n <= |rs|
    ensures forall i :: i in Play(rs, n).entries ==> Play(rs, n).purged <= i
  {
    if n != 0 { EntriesAbovePurge(rs, n - 1); }
  }

  // ---------- Dropping segments ----------

  /** There is a purge record from `lo` up to `hi`. */
  ghost predicate PurgeWithin(rs: seq<Rec>, lo: nat, hi: nat) {
    exists k :: lo <= k < hi && k < |rs| && rs[k].PurgeRec?
  }

  /** Of `n` records the first `m` may go: every entry in them is purged among the `n`, and if a purge is in
      them, one is in what stays. */
  ghost predicate Droppable(rs: seq<Rec>, m: nat, n: nat) {
    && m <= n <= |rs|
    && (forall j :: 0 <= j < m && rs[j].EntryRec? ==> Purged(rs, n, rs[j].i))
    && (PurgeWithin(rs, 0, m) ==> PurgeWithin(rs, m, n))
  }

  lemma DroppedIsDead(rs: seq<Rec>, m: nat, n: nat, j: nat, i: nat)
    requires AbovePurges(rs) && Droppable(rs, m, n) && j < m
    ensures !Alive(rs, n, j, i)
  {
    assert AbovePurgesAt(rs, j);
    if Alive(rs, n, j, i) {
      var k :| 0 <= k < n && rs[k].PurgeRec? && i <= rs[k].i;
    }
  }

  lemma SuffixAlive(rs: seq<Rec>, m: nat, n: nat, j: nat, i: nat)
    requires m <= n <= |rs|
    ensures Alive(rs[m..], n - m, j, i) <==> Alive(rs, n, j + m, i)
  {
    if Alive(rs[m..], n - m, j, i) {
      forall k | j + m < k < n ensures !Cuts(rs[k], i) { assert rs[k] == rs[m..][k - m]; }
    }
    if Alive(rs, n, j + m, i) {
      forall k | j < k < n - m ensures !Cuts(rs[m..][k], i) { assert rs[m..][k] == rs[k + m]; }
    }
  }

  lemma SuffixAbovePurges(rs: seq<Rec>, m: nat)
    requires AbovePurges(rs) && m <= |rs|
    ensures AbovePurges(rs[m..])
  {
    forall j | 0 <= j < |rs[m..]| ensures AbovePurgesAt(rs[m..], j) {
      assert AbovePurgesAt(rs, j + m);
      if Purged(rs[m..], j, rs[m..][j].i) {
        var k :| 0 <= k < j && rs[m..][k].PurgeRec? && rs[m..][j].i <= rs[m..][k].i;
        assert rs[k + m] == rs[m..][k];
      }
    }
  }

  lemma DroppedEntrySame(rs: seq<Rec>, m: nat, n: nat, i: nat)
    requires AbovePurges(rs) && Droppable(rs, m, n)
    ensures var a, b := Play(rs[m..], n - m).entries, Play(rs, n).entries;
            (i in a <==> i in b) && (i in a ==> a[i] == b[i])
  {
    SuffixAbovePurges(rs, m);
    PlayIsAlive(rs, n, i);
    PlayIsAlive(rs[m..], n - m, i);
    if Has(rs, n, i) {
      var j: nat :| Alive(rs, n, j, i);
      if j < m { DroppedIsDead(rs, m, n, j, i); }
      SuffixAlive(rs, m, n, j - m, i);
      assert rs[m..][j - m] == rs[j];
    } else if Has(rs[m..], n - m, i) {
      var j: nat :| Alive(rs[m..], n - m, j, i);
      SuffixAlive(rs, m, n, j, i);
    }
  }

  /** With a purge in what stays, and the same one last, the reported purge is the same. */
  lemma DroppedPurgeSame(rs: seq<Rec>, m: nat, n: nat)
    requires m <= n <= |rs| && (PurgeWithin(rs, 0, m) ==> PurgeWithin(rs, m, n))
    ensures Play(rs[m..], n - m).purged == Play(rs, n).purged
  {
    PlayedPurge(rs, n);
    PlayedPurge(rs[m..], n - m);
    if Play(rs, n).purged != 0 {
      var k: nat :| LastPurge(rs, n, k) && Play(rs, n).purged == rs[k].i + 1;
      assert rs[m..][k - m] == rs[k];
      var l: nat :| LastPurge(rs[m..], n - m, l) && Play(rs[m..], n - m).purged == rs[m..][l].i + 1;
      assert rs[m..][l] == rs[l + m];
    }
  }

  /** Dropping them changes no replay. */
  lemma DroppedReplaySame(rs: seq<Rec>, m: nat, n: nat)
    requires AbovePurges(rs) && Droppable(rs, m, n)
    ensures Play(rs[m..], n - m) == Play(rs, n)
  {
    DroppedPurgeSame(rs, m, n);
    forall i: nat
      ensures var a, b := Play(rs[m..], n - m).entries, Play(rs, n).entries;
              (i in a <==> i in b) && (i in a ==> a[i] == b[i])
    {
      DroppedEntrySame(rs, m, n, i);
    }
    assert Play(rs[m..], n - m).entries == Play(rs, n).entries;
  }

  lemma DroppableLater(rs: seq<Rec>, m: nat, n: nat, n': nat)
    requires Droppable(rs, m, n) && n <= n' <= |rs|
    ensures Droppable(rs, m, n')
  {
    forall j | 0 <= j < m && rs[j].EntryRec? ensures Purged(rs, n', rs[j].i) { assert Purged(rs, n, rs[j].i); }
  }
}
