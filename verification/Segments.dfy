/** The WAL's files: segments that each start with a copy of the last purge,
    dropped from the front once a purge covers every entry in them. Whatever was
    rolled and dropped, the files replay to what the records handed in replay to. */
module Segments {

  import opened Common
  import opened Wal

  // ---------- Copies ----------

  /** The first `n` records ever written are the first `count[n]` handed in and some copies of purges. */
  ghost predicate CopiedAt(ever: seq<Rec>, given: seq<Rec>, count: seq<nat>, n: nat) {
    n <= |ever| && n < |count| && count[n] <= |given| ==> Play(ever, n) == Play(given, count[n])
  }

  ghost predicate Copied(ever: seq<Rec>, given: seq<Rec>, count: seq<nat>) {
    && |count| == |ever| + 1 && count[|ever|] == |given|
    && (forall i, j :: 0 <= i <= j < |count| ==> count[i] <= count[j])
    && (forall n: nat :: CopiedAt(ever, given, count, n))
  }

  lemma PlayExtends(rs: seq<Rec>, r: Rec, n: nat)
    requires n <= |rs|
    ensures Play(rs + [r], n) == Play(rs, n)
  {
    assert (rs + [r])[..|rs|] == rs;
    PlayOnPrefix(rs + [r], |rs|, n);
  }

  lemma CountsOn(count: seq<nat>, c: nat)
    requires count != [] && (forall i, j :: 0 <= i <= j < |count| ==> count[i] <= count[j]) && count[|count| - 1] <= c
    ensures var more := count + [c];
            forall i, j :: 0 <= i <= j < |more| ==> more[i] <= more[j]
  {
  }

  lemma CopiedMore(ever: seq<Rec>, given: seq<Rec>, count: seq<nat>, r: Rec)
    requires Copied(ever, given, count)
    ensures Copied(ever + [r], given + [r], count + [|given| + 1])
  {
    var ever', given', count' := ever + [r], given + [r], count + [|given| + 1];
    CountsOn(count, |given| + 1);
    forall n: nat ensures CopiedAt(ever', given', count', n) {
      if n <= |ever| {
        assert CopiedAt(ever, given, count, n) && count[n] <= count[|ever|];
        PlayExtends(ever, r, n);
        PlayExtends(given, r, count[n]);
      } else if n == |ever| + 1 {
        assert CopiedAt(ever, given, count, |ever|);
        PlayExtends(ever, r, |ever|);
        PlayExtends(given, r, |given|);
      }
    }
  }

  /** A copy of the purge on record changes nothing. */
  lemma CopyOfPurge(ever: seq<Rec>, given: seq<Rec>, count: seq<nat>, p: nat)
    requires Copied(ever, given, count) && Play(given, |given|).purged == p + 1
    ensures Copied(ever + [PurgeRec(p)], given, count + [|given|])
  {
    var r := PurgeRec(p);
    var ever', count' := ever + [r], count + [|given|];
    CountsOn(count, |given|);
    forall n: nat ensures CopiedAt(ever', given, count', n) {
      if n <= |ever| {
        assert CopiedAt(ever, given, count, n);
        PlayExtends(ever, r, n);
      } else if n == |ever| + 1 {
        assert CopiedAt(ever, given, count, |ever|);
        PlayExtends(ever, r, |ever|);
        EntriesAbovePurge(ever, |ever|);
        assert Play1(Play(ever, |ever|), r).entries == Play(ever, |ever|).entries;
      }
    }
  }

  /** Both have purged the same indexes. */
  ghost predicate SamePurged(ever: seq<Rec>, given: seq<Rec>) {
    forall i: nat :: Purged(ever, |ever|, i) <==> Purged(given, |given|, i)
  }

  lemma PurgedMore(rs: seq<Rec>, r: Rec, i: nat)
    ensures Purged(rs + [r], |rs| + 1, i) <==> Purged(rs, |rs|, i) || (r.PurgeRec? && i <= r.i)
  {
    var rs' := rs + [r];
    if Purged(rs, |rs|, i) {
      var k :| 0 <= k < |rs| && rs[k].PurgeRec? && i <= rs[k].i;
      assert rs'[k] == rs[k];
    }
    if r.PurgeRec? && i <= r.i { assert rs'[|rs|] == r; }
  }

  lemma SamePurgedMore(ever: seq<Rec>, given: seq<Rec>, r: Rec)
    requires SamePurged(ever, given)
    ensures SamePurged(ever + [r], given + [r])
  {
    var ever', given' := ever + [r], given + [r];
    forall i: nat ensures Purged(ever', |ever'|, i) <==> Purged(given', |given'|, i) {
      PurgedMore(ever, r, i);
      PurgedMore(given, r, i);
    }
  }

  lemma SamePurgedCopy(ever: seq<Rec>, given: seq<Rec>, p: nat)
    requires SamePurged(ever, given) && Play(given, |given|).purged == p + 1
    ensures SamePurged(ever + [PurgeRec(p)], given)
  {
    PlayedPurge(given, |given|);
    var ever' := ever + [PurgeRec(p)];
    forall i: nat ensures Purged(ever', |ever'|, i) <==> Purged(given, |given|, i) {
      PurgedMore(ever, PurgeRec(p), i);
      if i <= p {
        var k :| 0 <= k < |given| && given[k].PurgeRec? && p <= given[k].i;
        assert Purged(given, |given|, i);
      }
    }
  }

  // ---------- Segments ----------

  /** A segment file: the position of its first record among all ever written, and its highest entry. */
  datatype Segment = Segment(from: nat, maxEntry: Option<nat>)

  /** Where segment `i` ends. */
  function End(segments: seq<Segment>, i: nat, total: nat): nat {
    if i + 1 < |segments| then segments[i + 1].from else total
  }

  predicate Within(m: Option<nat>, r: Rec) { r.EntryRec? ==> m.Some? && r.i <= m.value }

  /** A segment that follows a purge starts with one. */
  ghost predicate Headed(ever: seq<Rec>, from: nat) {
    PurgeWithin(ever, 0, from) ==> from < |ever| && ever[from].PurgeRec?
  }

  ghost predicate LaidAt(ever: seq<Rec>, segments: seq<Segment>, i: nat) {
    i < |segments| ==>
      var s := segments[i];
      && s.from <= End(segments, i, |ever|) <= |ever|
      && (forall j :: s.from <= j < End(segments, i, |ever|) ==> Within(s.maxEntry, ever[j]))
      && (i > 0 ==> Headed(ever, s.from))
  }

  ghost predicate Laid(ever: seq<Rec>, segments: seq<Segment>) {
    segments != [] && forall i: nat :: LaidAt(ever, segments, i)
  }

  function Raised(m: Option<nat>, r: Rec): Option<nat> {
    if r.EntryRec? && (m.None? || m.value < r.i) then Some(r.i) else m
  }

  /** One more record in the last segment. */
  function Grown(segments: seq<Segment>, r: Rec): seq<Segment>
    requires segments != []
  {
    var last := |segments| - 1;
    segments[last := segments[last].(maxEntry := Raised(segments[last].maxEntry, r))]
  }

  lemma LaidMore(ever: seq<Rec>, segments: seq<Segment>, r: Rec)
    requires Laid(ever, segments)
    ensures Laid(ever + [r], Grown(segments, r))
  {
    forall i: nat ensures LaidAt(ever + [r], Grown(segments, r), i) {
      assert LaidAt(ever, segments, i);
      if 0 < i < |segments| { HeadedMore(ever, r, segments[i].from); }
    }
  }

  lemma HeadedMore(ever: seq<Rec>, r: Rec, from: nat)
    requires Headed(ever, from) && from <= |ever|
    ensures Headed(ever + [r], from)
  {
    if PurgeWithin(ever + [r], 0, from) {
      var k :| 0 <= k < from && (ever + [r])[k].PurgeRec?;
      assert ever[k].PurgeRec?;
    }
  }

  /** A new segment, with the copy if there is one to make. */
  lemma LaidRolled(ever: seq<Rec>, segments: seq<Segment>, copy: seq<Rec>)
    requires Laid(ever, segments)
    requires copy == [] || (|copy| == 1 && copy[0].PurgeRec?)
    requires copy == [] ==> !PurgeWithin(ever, 0, |ever|)
    ensures Laid(ever + copy, segments + [Segment(|ever|, None)])
  {
    var ever', segments' := ever + copy, segments + [Segment(|ever|, None)];
    forall i: nat ensures LaidAt(ever', segments', i) {
      assert LaidAt(ever, segments, i);
      if 0 < i < |segments| {
        if copy == [] {
          assert ever' == ever;
        } else {
          assert ever' == ever + [copy[0]];
          HeadedMore(ever, copy[0], segments[i].from);
        }
      }
      if i == |segments| && PurgeWithin(ever', 0, |ever|) {
        var k :| 0 <= k < |ever| && ever'[k].PurgeRec?;
        assert ever[k].PurgeRec?;
      }
    }
  }

  /** The first segment may go once everything is synced and a purge covers its entries. */
  lemma FirstMayGo(ever: seq<Rec>, segments: seq<Segment>, index: nat)
    requires Laid(ever, segments) && |segments| > 1
    requires Droppable(ever, segments[0].from, |ever|) && Purged(ever, |ever|, index)
    requires segments[0].maxEntry.None? || segments[0].maxEntry.value <= index
    ensures Laid(ever, segments[1..]) && Droppable(ever, segments[1].from, |ever|)
  {
    var m := segments[1].from;
    assert LaidAt(ever, segments, 0) && LaidAt(ever, segments, 1);
    var p :| 0 <= p < |ever| && ever[p].PurgeRec? && index <= ever[p].i;
    forall j | 0 <= j < m && ever[j].EntryRec? ensures Purged(ever, |ever|, ever[j].i) {
      if segments[0].from <= j { assert Within(segments[0].maxEntry, ever[j]); }
    }
    forall i: nat ensures LaidAt(ever, segments[1..], i) { assert LaidAt(ever, segments, i + 1); }
  }

  lemma DroppableStays(rs: seq<Rec>, r: Rec, m: nat, n: nat)
    requires Droppable(rs, m, n)
    ensures Droppable(rs + [r], m, n)
  {
    var rs' := rs + [r];
    forall j | 0 <= j < m && rs'[j].EntryRec? ensures Purged(rs', n, rs'[j].i) {
      assert rs'[j] == rs[j];
      assert rs'[..n] == rs[..n];
      PurgedOnPrefix(rs, rs', n, rs[j].i);
    }
    if PurgeWithin(rs', 0, m) {
      var k :| 0 <= k < m && rs'[k].PurgeRec?;
      assert rs[k].PurgeRec?;
      var l :| m <= l < n && rs[l].PurgeRec?;
      assert rs'[l] == rs[l];
    }
  }

  /** With no purge to copy, none was ever written. */
  lemma NoPurgeYet(ever: seq<Rec>, given: seq<Rec>, sticky: Option<nat>)
    requires SamePurged(ever, given)
    requires Play(given, |given|).purged == if sticky.Some? then sticky.value + 1 else 0
    ensures sticky.None? ==> !PurgeWithin(ever, 0, |ever|)
  {
    PlayedPurge(given, |given|);
    if PurgeWithin(ever, 0, |ever|) {
      var k :| 0 <= k < |ever| && ever[k].PurgeRec?;
      assert Purged(ever, |ever|, ever[k].i);
    }
  }

  /** The copy a new segment starts with. */
  function Copy(sticky: Option<nat>): seq<Rec> { if sticky.Some? then [PurgeRec(sticky.value)] else [] }

  /** The first `n` segments went, and they had no entry above `index`. */
  ghost predicate Dropped(before: seq<Segment>, after: seq<Segment>, n: nat, index: nat) {
    && n < |before| && after == before[n..]
    && forall i :: 0 <= i < n ==> before[i].maxEntry.None? || before[i].maxEntry.value <= index
  }

  // ---------- The files ----------

  class Files {
    var segments: seq<Segment>
    /** The records in the segments, in order. */
    var disk: seq<Rec>
    /** The purge to start the next segment with. */
    var sticky: Option<nat>
    /** Every record ever written to a file, how many of them are synced, the records handed in, and how
        many of those are among the first so many written. */
    ghost var ever: seq<Rec>
    ghost var synced: nat
    ghost var given: seq<Rec>
    ghost var count: seq<nat>

    ghost predicate Valid()
      reads this
    {
      && Copied(ever, given, count) && SamePurged(ever, given) && AbovePurges(ever)
      && Laid(ever, segments) && synced <= |ever| && Droppable(ever, segments[0].from, synced)
      && disk == ever[segments[0].from..]
      && Play(given, |given|).purged == if sticky.Some? then sticky.value + 1 else 0
    }

    constructor ()
      ensures Valid() && given == []
    {
      segments, disk, sticky := [Segment(0, None)], [], None;
      ever, synced, given, count := [], 0, [], [0];
    }

    /** Write one record at the end of the last segment. */
    method Write(r: Rec)
      requires Laid(ever, segments) && AbovePurges(ever)
      requires Droppable(ever, segments[0].from, synced) && disk == ever[segments[0].from..]
      requires r.EntryRec? ==> !Purged(ever, |ever|, r.i)
      modifies this`segments, this`disk, this`ever
      ensures ever == old(ever) + [r] && Laid(ever, segments) && AbovePurges(ever)
      ensures Droppable(ever, segments[0].from, synced) && disk == ever[segments[0].from..]
      ensures disk == old(disk) + [r] && |segments| == old(|segments|)
    {
      LaidMore(ever, segments, r);
      AbovePurgesStep(ever, r);
      DroppableStays(ever, r, segments[0].from, synced);
      segments, disk, ever := Grown(segments, r), disk + [r], ever + [r];
    }

    /** Sync the last segment and start the next with a copy of the purge on record. */
    method Roll()
      requires Valid()
      modifies this
      ensures Valid() && given == old(given) && count[synced] == |given| && sticky == old(sticky)
      ensures segments == old(segments) + [Segment(old(|ever|), None)] && disk == old(disk) + Copy(old(sticky))
    {
      Sync();
      NoPurgeYet(ever, given, sticky);
      var from := segments[0].from + |disk|;
      if sticky.Some? {
        var p := sticky.value;
        CopyOfPurge(ever, given, count, p);
        SamePurgedCopy(ever, given, p);
        LaidRolled(ever, segments, [PurgeRec(p)]);
        AbovePurgesStep(ever, PurgeRec(p));
        DroppableStays(ever, PurgeRec(p), segments[0].from, synced);
        segments, disk := segments + [Segment(from, None)], disk + [PurgeRec(p)];
        ever, count := ever + [PurgeRec(p)], count + [|given|];
      } else {
        LaidRolled(ever, segments, []);
        assert ever + [] == ever;
        segments := segments + [Segment(from, None)];
      }
    }

    /** Append one record to the last segment. An entry is never at a purged index. */
    method AppendHere(r: Rec)
      requires Valid() && (r.EntryRec? ==> !Purged(given, |given|, r.i))
      modifies this
      ensures Valid() && given == old(given) + [r] && |segments| == old(|segments|) && disk == old(disk) + [r]
    {
      CopiedMore(ever, given, count, r);
      SamePurgedMore(ever, given, r);
      PlayExtends(given, r, |given|);
      Write(r);
      given, count := given + [r], count + [|given| + 1];
      if r.PurgeRec? { sticky := Some(r.i); }
    }

    /** Append one record, in a new segment if the last is full. */
    method Append(r: Rec, full: bool)
      requires Valid() && (r.EntryRec? ==> !Purged(given, |given|, r.i))
      modifies this
      ensures Valid() && given == old(given) + [r]
      ensures |segments| == old(|segments|) + if full then 1 else 0
      ensures disk == old(disk) + (if full then Copy(old(sticky)) else []) + [r]
    {
      if full { Roll(); }
      AppendHere(r);
    }

    method Sync()
      requires Valid()
      modifies this`synced
      ensures Valid() && synced == |ever| && count[synced] == |given|
    {
      DroppableLater(ever, segments[0].from, synced, |ever|);
      synced := |ever|;
    }

    /** Drop the oldest segments, never the last, whose entries are all at `index` or below. A purge at
        `index` or above was handed in, and all is synced. */
    method DropUpto(index: nat)
      requires Valid() && synced == |ever| && Purged(given, |given|, index)
      modifies this`segments, this`disk
      ensures Valid()
      ensures |segments| == 1 || (segments[0].maxEntry.Some? && segments[0].maxEntry.value > index)
      ensures exists n: nat :: Dropped(old(segments), segments, n, index)
    {
      assert Dropped(old(segments), segments, 0, index);
      ghost var n: nat := 0;
      while |segments| > 1 && (segments[0].maxEntry.None? || segments[0].maxEntry.value <= index)
        invariant Valid() && Dropped(old(segments), segments, n, index)
        decreases |segments|
      {
        FirstMayGo(ever, segments, index);
        assert LaidAt(ever, segments, 0);
        disk := disk[segments[1].from - segments[0].from..];
        segments, n := segments[1..], n + 1;
      }
    }

    /** Whatever was rolled and dropped: a crash that leaves the synced records and some of the rest leaves
        files that replay to a prefix of the records handed in, with every synced one in it. */
    lemma CrashReplays(n: nat)
      requires Valid() && synced <= n <= |ever|
      ensures segments[0].from <= n && n - segments[0].from <= |disk| && count[synced] <= count[n] <= |given|
      ensures Play(disk, n - segments[0].from) == Play(given, count[n])
    {
      var m := segments[0].from;
      DroppableLater(ever, m, synced, n);
      DroppedReplaySame(ever, m, n);
      assert CopiedAt(ever, given, count, n);
    }

    /** In particular the files themselves replay to all that was handed in. */
    lemma FilesReplay()
      requires Valid()
      ensures Play(disk, |disk|) == Play(given, |given|)
    {
      CrashReplays(|ever|);
    }
  }
}
