/** The log in memory: a slot per entry with its bytes, its place in the WAL, or
    both. Slots lose their bytes once they are in the WAL and the cache is over
    its limit. Whatever is cached or evicted, it reads as a plain log. */
module SlotMap {

  import opened Common
  type Data = seq<nat>

  /** An entry's encoded bytes, shared by reference. */
  class Blob {
    const data: Data
    constructor (data: Data)
      ensures this.data == data
    {
      this.data := data;
    }
  }

  /** Where a payload is in the WAL, and its length. */
  datatype Loc = Loc(at: nat, len: nat)
  datatype Slot = Slot(bytes: Option<Blob>, loc: Option<Loc>)
  datatype Placed = Placed(index: nat, bytes: Blob, loc: Loc)

  // ---------- Sums over index ranges ----------

  function CachedAt(entries: map<nat, Slot>, i: nat): nat {
    if i in entries && entries[i].bytes.Some? then |entries[i].bytes.value.data| else 0
  }

  /** The cached bytes of the entries at `lo..hi`. */
  function Cached(entries: map<nat, Slot>, lo: nat, hi: nat): nat
    decreases hi
  {
    if hi <= lo then 0 else Cached(entries, lo, hi - 1) + CachedAt(entries, hi - 1)
  }

  lemma {:induction false} CachedSplit(entries: map<nat, Slot>, lo: nat, mid: nat, hi: nat)
    requires lo <= mid <= hi
    ensures Cached(entries, lo, hi) == Cached(entries, lo, mid) + Cached(entries, mid, hi)
    decreases hi
  {
    if mid < hi { CachedSplit(entries, lo, mid, hi - 1); }
  }

  /** Two maps that cache the same in a range have the same sum there. */
  lemma {:induction false} CachedSame(a: map<nat, Slot>, b: map<nat, Slot>, lo: nat, hi: nat)
    requires forall i: nat :: lo <= i < hi ==> CachedAt(a, i) == CachedAt(b, i)
    ensures Cached(a, lo, hi) == Cached(b, lo, hi)
    decreases hi
  {
    if lo < hi { CachedSame(a, b, lo, hi - 1); }
  }

  lemma {:induction false} CachedNone(a: map<nat, Slot>, lo: nat, hi: nat)
    requires forall i: nat :: lo <= i < hi ==> CachedAt(a, i) == 0
    ensures Cached(a, lo, hi) == 0
    decreases hi
  {
    if lo < hi { CachedNone(a, lo, hi - 1); }
  }

  // ---------- The plain log ----------

  function Below(log: map<nat, Data>, index: nat): map<nat, Data> { map i | i in log && i < index :: log[i] }
  function AboveIndex(log: map<nat, Data>, index: nat): map<nat, Data> { map i | i in log && i > index :: log[i] }

  /** The entries at `lo..hi`, in order. */
  function Read(log: map<nat, Data>, lo: nat, hi: nat): seq<Data>
    decreases hi
  {
    if hi <= lo then [] else Read(log, lo, hi - 1) + if hi - 1 in log then [log[hi - 1]] else []
  }

  /** `at` are exactly the indexes of the log in `lo..hi`, ascending, and `out` the log at them. */
  ghost predicate Listing(log: map<nat, Data>, lo: nat, hi: nat, at: seq<nat>, out: seq<Data>) {
    && |out| == |at|
    && (forall k :: 0 <= k < |at| ==> lo <= at[k] < hi && at[k] in log && out[k] == log[at[k]])
    && (forall j, k :: 0 <= j < k < |at| ==> at[j] < at[k])
    && (forall i <- log :: lo <= i < hi ==> i in at)
  }

  /** `out` is the log at `lo..hi` in index order; where no index is missing, entry by entry. */
  ghost predicate InOrder(log: map<nat, Data>, lo: nat, hi: nat, out: seq<Data>) {
    && (exists at: seq<nat> :: Listing(log, lo, hi, at, out))
    && (lo <= hi && NoHole(log, lo, hi) ==> |out| == hi - lo && forall k :: 0 <= k < hi - lo ==> out[k] == log[lo + k])
  }

  predicate NoHole(log: map<nat, Data>, lo: nat, hi: nat) { forall i :: lo <= i < hi ==> i in log }

  lemma {:induction false} ReadLists(log: map<nat, Data>, lo: nat, hi: nat) returns (at: seq<nat>)
    ensures Listing(log, lo, hi, at, Read(log, lo, hi))
    decreases hi
  {
    if hi <= lo {
      at := [];
    } else {
      at := ReadLists(log, lo, hi - 1);
      if hi - 1 in log {
        var before := at;
        at := at + [hi - 1];
        assert at[|before|] == hi - 1 && forall i <- before :: i in at;
      }
    }
  }

  lemma {:induction false} ReadWhole(log: map<nat, Data>, lo: nat, hi: nat)
    requires lo <= hi && NoHole(log, lo, hi)
    ensures |Read(log, lo, hi)| == hi - lo && forall k :: 0 <= k < hi - lo ==> Read(log, lo, hi)[k] == log[lo + k]
    decreases hi
  {
    if lo < hi { ReadWhole(log, lo, hi - 1); }
  }

  lemma ReadInOrder(log: map<nat, Data>, lo: nat, hi: nat)
    ensures InOrder(log, lo, hi, Read(log, lo, hi))
  {
    var at := ReadLists(log, lo, hi);
    if lo <= hi && NoHole(log, lo, hi) { ReadWhole(log, lo, hi); }
  }

  /** The bytes of several entries, one after the other. */
  function Joined(out: seq<Data>): Data { if out == [] then [] else Joined(out[..|out| - 1]) + out[|out| - 1] }

  lemma {:induction false} SizeIsBytes(log: map<nat, Data>, lo: nat, hi: nat)
    ensures Size(log, lo, hi) == |Joined(Read(log, lo, hi))|
    decreases hi
  {
    if lo < hi {
      SizeIsBytes(log, lo, hi - 1);
      var front := Read(log, lo, hi - 1);
      if hi - 1 in log { assert (front + [log[hi - 1]])[..|front|] == front; } else { assert front + [] == front; }
    }
  }

  /** The bytes of the entries at `lo..hi`. */
  function Size(log: map<nat, Data>, lo: nat, hi: nat): nat
    decreases hi
  {
    if hi <= lo then 0 else Size(log, lo, hi - 1) + SizeAt(log, hi - 1)
  }

  function SizeAt(log: map<nat, Data>, i: nat): nat { if i in log then |log[i]| else 0 }

  lemma {:induction false} SizeFirst(log: map<nat, Data>, lo: nat, hi: nat)
    requires lo < hi
    ensures Size(log, lo, hi) == SizeAt(log, lo) + Size(log, lo + 1, hi)
    decreases hi
  {
    if lo + 1 < hi { SizeFirst(log, lo, hi - 1); }
  }

  /** Slot `s` can produce `data`, from memory or from the WAL. */
  predicate Produces(s: Slot, disk: map<Loc, Data>, data: Data) {
    && (s.bytes.Some? || s.loc.Some?)
    && (s.bytes.Some? ==> s.bytes.value.data == data)
    && (s.loc.Some? ==> s.loc.value in disk && disk[s.loc.value] == data && s.loc.value.len == |data|)
  }

  ghost predicate SlotAt(entries: map<nat, Slot>, log: map<nat, Data>, disk: map<Loc, Data>, top: nat, i: nat) {
    && (i in entries <==> i in log)
    && (i in entries ==> i < top && Produces(entries[i], disk, log[i]))
  }

  /** The slots stand for the log, below `top`. */
  ghost predicate Stands(entries: map<nat, Slot>, log: map<nat, Data>, disk: map<Loc, Data>, top: nat) {
    forall i: nat :: SlotAt(entries, log, disk, top, i)
  }

  predicate Uncached(entries: map<nat, Slot>, i: nat) { i in entries ==> entries[i].bytes.None? }

  /** The cache is within its limit, or its oldest entry is not in the WAL yet. */
  ghost predicate Settled(entries: map<nat, Slot>, cached: nat, limit: nat) {
    cached <= limit || exists j :: OldestWaits(entries, j)
  }

  ghost predicate OldestWaits(entries: map<nat, Slot>, j: nat) {
    && j in entries && entries[j].bytes.Some? && entries[j].loc.None?
    && forall i: nat :: i < j ==> Uncached(entries, i)
  }

  class State {
    var entries: map<nat, Slot>
    var cachedBytes: nat
    const cacheLimit: nat
    var evictCursor: nat
    /** One past the highest index ever held: where iteration over the map ends. */
    var top: nat
    /** What the WAL's reader finds. */
    var disk: map<Loc, Data>
    ghost var log: map<nat, Data>

    ghost predicate Valid()
      reads this
    {
      && Stands(entries, log, disk, top)
      && (forall i: nat :: i < evictCursor ==> Uncached(entries, i))
      && cachedBytes == Cached(entries, 0, top)
    }

    constructor (limit: nat)
      ensures Valid() && log == map[] && cacheLimit == limit
    {
      entries, cachedBytes, cacheLimit, evictCursor, top, disk, log := map[], 0, limit, 0, 0, map[], map[];
      new;
      CachedNone(entries, 0, 0);
    }

    /** Subtract what the entries at `lo..hi` cache; never more than is counted. */
    method Forget(lo: nat, hi: nat)
      requires Valid() && lo <= hi <= top
      modifies this`cachedBytes
      ensures cachedBytes == old(cachedBytes) - Cached(entries, lo, hi)
    {
      CachedSplit(entries, 0, lo, top);
      CachedSplit(entries, lo, hi, top);
      var i := lo;
      while i < hi
        invariant lo <= i <= hi && cachedBytes == old(cachedBytes) - Cached(entries, lo, i)
      {
        CachedSplit(entries, lo, i + 1, hi);
        if i in entries && entries[i].bytes.Some? {
          cachedBytes := cachedBytes - |entries[i].bytes.value.data|;
        }
        i := i + 1;
      }
    }

    /** Drop every entry from `index` on. */
    method RemoveFrom(index: nat)
      requires Valid()
      modifies this`entries, this`cachedBytes, this`evictCursor, this`log
      ensures Valid() && log == Below(old(log), index) && evictCursor <= index
      ensures (forall i: nat :: i in log <==> i in old(log) && i < index) && forall i <- log :: log[i] == old(log)[i]
    {
      if index < top {
        CachedSplit(entries, 0, index, top);
        Forget(index, top);
      }
      ghost var before := entries;
      entries := map i | i in entries && i < index :: entries[i];
      log := Below(log, index);
      if index < evictCursor { evictCursor := index; }
      KeptBelow(before, entries, index, top);
      assert forall i: nat :: SlotAt(before, old(log), disk, top, i) ==> SlotAt(entries, log, disk, top, i);
      assert forall i: nat :: Uncached(before, i) ==> Uncached(entries, i);
    }

    /** Drop every entry up to and including `index`. */
    method RemoveUpto(index: nat)
      requires Valid()
      modifies this`entries, this`cachedBytes, this`log
      ensures Valid() && log == AboveIndex(old(log), index)
      ensures (forall i: nat :: i in log <==> i in old(log) && i > index) && forall i <- log :: log[i] == old(log)[i]
    {
      var end := if index + 1 < top then index + 1 else top;
      CachedSplit(entries, 0, end, top);
      Forget(0, end);
      ghost var before := entries;
      entries := map i | i in entries && i > index :: entries[i];
      log := AboveIndex(log, index);
      KeptAbove(before, entries, index, end, top);
      assert forall i: nat :: SlotAt(before, old(log), disk, top, i) ==> SlotAt(entries, log, disk, top, i);
      assert forall i: nat :: Uncached(before, i) ==> Uncached(entries, i);
    }

    /** One entry of `append`: it replaces whatever is at its index and after. */
    method Append(index: nat, bytes: Blob)
      requires Valid()
      modifies this`entries, this`cachedBytes, this`evictCursor, this`log, this`top
      ensures Valid() && log == Below(old(log), index)[index := bytes.data]
      ensures forall i: nat :: i in log <==> i == index || (i in old(log) && i < index)
      ensures log[index] == bytes.data && forall i <- log :: i < index ==> log[i] == old(log)[i]
    {
      RemoveFrom(index);
      var slot := Slot(Some(bytes), None);
      ghost var newTop := if top <= index then index + 1 else top;
      AllBelow(entries, log, disk, top, index);
      Added(entries, index, slot, top, newTop);
      StandsWith(entries, log, disk, top, index, slot, newTop);
      UncachedWith(entries, entries[index := slot], evictCursor, index, slot);
      cachedBytes := cachedBytes + |bytes.data|;
      entries := entries[index := slot];
      log := log[index := bytes.data];
      if top <= index { top := index + 1; }
    }

    /** The WAL now holds `data` at `loc`. */
    method Written(loc: Loc, data: Data)
      requires Valid() && loc !in disk && loc.len == |data|
      modifies this`disk
      ensures Valid() && disk == old(disk)[loc := data]
    {
      disk := disk[loc := data];
      assert forall i: nat :: SlotAt(entries, log, old(disk), top, i) ==> SlotAt(entries, log, disk, top, i);
    }

    /** Note where the entries just written are. One replaced meanwhile is ignored. */
    method Place(placed: seq<Placed>)
      requires Valid() && forall i :: 0 <= i < |placed| ==> OnDisk(disk, placed[i])
      modifies this`entries, this`cachedBytes, this`evictCursor
      ensures Valid() && Settled(entries, cachedBytes, cacheLimit)
      ensures Located(old(entries), entries, placed, |placed|)
    {
      ghost var first := entries;
      var k := 0;
      while k < |placed|
        invariant k <= |placed| && Valid() && SameBytes(first, entries) && Located(first, entries, placed, k)
      {
        PlacedNext(first, entries, placed, k);
        PlaceThis(placed[k]);
        k := k + 1;
      }
      if cachedBytes > cacheLimit { Evict(); }
    }

    method PlaceThis(p: Placed)
      requires Valid() && OnDisk(disk, p)
      modifies this`entries
      ensures Valid() && entries == PlaceOne(old(entries), p)
    {
      if p.index in entries && entries[p.index].bytes == Some(p.bytes) {
        ghost var before := entries;
        assert SlotAt(entries, log, disk, top, p.index);
        entries := entries[p.index := entries[p.index].(loc := Some(p.loc))];
        CachedSame(entries, before, 0, top);
        assert forall i: nat :: SlotAt(before, log, disk, top, i) ==> SlotAt(entries, log, disk, top, i);
        assert forall i: nat :: Uncached(before, i) ==> Uncached(entries, i);
      }
    }

    /** Drop bytes from the oldest entry on until within the limit or at one not in the WAL. */
    method Evict()
      requires Valid()
      modifies this`entries, this`cachedBytes, this`evictCursor
      ensures Valid() && Settled(entries, cachedBytes, cacheLimit) && OnlyBytesGo(old(entries), entries)
    {
      var i := evictCursor;
      while i < top
        invariant OnlyBytesGo(old(entries), entries)
        invariant Valid() && evictCursor <= i && forall j: nat :: j < i ==> Uncached(entries, j)
        decreases top - i
      {
        if i in entries {
          if cachedBytes <= cacheLimit { return; }
          assert SlotAt(entries, log, disk, top, i);
          if entries[i].loc.None? { assert OldestWaits(entries, i); return; }
          if entries[i].bytes.Some? {
            ghost var before := entries;
            Dropped(before, i, top);
            cachedBytes := cachedBytes - |entries[i].bytes.value.data|;
            entries := entries[i := entries[i].(bytes := None)];
            assert forall j: nat :: SlotAt(before, log, disk, top, j) ==> SlotAt(entries, log, disk, top, j);
            assert forall j: nat :: Uncached(before, j) ==> Uncached(entries, j);
          }
          evictCursor := i + 1;
        }
        i := i + 1;
      }
      assert forall j: nat :: Uncached(entries, j) ==> CachedAt(entries, j) == 0;
      CachedNone(entries, 0, top);
    }

    /** The entries at `lo..hi`: exactly the log's, cached or not. */
    method TryGet(lo: nat, hi: nat) returns (out: Option<seq<Data>>)
      requires Valid()
      ensures out == Some(Read(log, lo, hi)) && InOrder(log, lo, hi, out.value)
    {
      ReadInOrder(log, lo, hi);
      var r, i := [], lo;
      while i < hi
        invariant (i <= hi || i == lo) && lo <= i && r == Read(log, lo, i)
      {
        assert SlotAt(entries, log, disk, top, i);
        if i in entries {
          match entries[i] {
            case Slot(Some(b), _) => r := r + [b.data];
            case Slot(None, Some(loc)) => r := r + [disk[loc]];
            case Slot(None, None) => return None;
          }
        }
        i := i + 1;
      }
      return Some(r);
    }

    /** What an entry weighs, from whichever of the two the slot has. */
    function Weight(i: nat): nat
      reads this
    {
      if i !in entries then 0
      else if entries[i].bytes.Some? then |entries[i].bytes.value.data|
      else if entries[i].loc.Some? then entries[i].loc.value.len
      else 0
    }

    /** The entries one AppendEntries carries: a run from `start`, within REPLICATION_BYTES unless one
        entry alone is larger, and not stopped before an entry that still fits. */
    method LimitedGet(start: nat, end: nat) returns (out: Option<seq<Data>>, stop: nat)
      requires Valid() && start <= end
      ensures start <= stop <= end && out == Some(Read(log, start, stop)) && InOrder(log, start, stop, out.value)
      ensures Size(log, start, stop) == |Joined(out.value)|
      ensures Size(log, start, stop) <= REPLICATION_BYTES || OneLarge(log, start, stop)
      ensures stop < end ==> stop in log && Size(log, start, stop) > 0
      ensures stop < end ==> Size(log, start, stop) + |log[stop]| > REPLICATION_BYTES
    {
      var bytes, i := 0, start;
      while i < end
        invariant start <= i <= end && bytes == Size(log, start, i)
        invariant bytes <= REPLICATION_BYTES || OneLarge(log, start, i)
      {
        assert SlotAt(entries, log, disk, top, i);
        if i in entries {
          var len := Weight(i);
          if bytes > 0 && bytes + len > REPLICATION_BYTES { break; }
          assert bytes == 0 ==> OneLarge(log, start, i + 1);
          bytes := bytes + len;
        }
        i := i + 1;
      }
      stop := i;
      SizeIsBytes(log, start, stop);
      out := TryGet(start, i);
    }

    /** The newest index with at least `keep` bytes after it, up to `upto`. */
    method PurgePointKeeping(upto: nat, keep: nat) returns (at: Option<nat>)
      requires Valid()
      ensures at.Some? ==> at.value in log && at.value <= upto && Size(log, at.value + 1, upto + 1) >= keep
      ensures forall j <- log :: j <= upto && (at.None? || j > at.value) ==> Size(log, j + 1, upto + 1) < keep
    {
      var held, i := 0, upto + 1;
      while i > 0
        invariant 0 <= i <= upto + 1 && held == Size(log, i, upto + 1)
        invariant forall j <- log :: i <= j <= upto ==> Size(log, j + 1, upto + 1) < keep
      {
        assert SlotAt(entries, log, disk, top, i - 1);
        if i - 1 in entries && held >= keep { return Some(i - 1); }
        SizeFirst(log, i - 1, upto + 1);
        held := held + Weight(i - 1);
        i := i - 1;
      }
      at := None;
    }
  }

  /** Slots may have lost their bytes, nothing else. */
  ghost predicate OnlyBytesGo(before: map<nat, Slot>, after: map<nat, Slot>) {
    && after.Keys == before.Keys
    && forall i <- before :: after[i].loc == before[i].loc && (after[i].bytes == before[i].bytes || after[i].bytes.None?)
  }

  /** Placement `k` is for slot `i`, which has `bytes`. */
  predicate IsFor(bytes: Option<Blob>, placed: seq<Placed>, k: nat, i: nat) {
    k < |placed| && placed[k].index == i && bytes == Some(placed[k].bytes)
  }

  /** Placement `k` is the last of the first `n` for it. */
  ghost predicate LastFor(bytes: Option<Blob>, placed: seq<Placed>, n: nat, k: nat, i: nat) {
    k < n && IsFor(bytes, placed, k, i) && forall l: nat :: k < l < n ==> !IsFor(bytes, placed, l, i)
  }

  /** A slot that had `was` is now at the last placement for it, or where it was if there is none. */
  ghost predicate LocIs(was: Slot, loc: Option<Loc>, placed: seq<Placed>, n: nat, i: nat) {
    && ((forall k: nat :: k < n ==> !IsFor(was.bytes, placed, k, i)) ==> loc == was.loc)
    && (forall k: nat :: LastFor(was.bytes, placed, n, k, i) ==> loc == Some(placed[k].loc))
  }

  lemma LocNext(was: Slot, loc: Option<Loc>, placed: seq<Placed>, n: nat, i: nat, loc': Option<Loc>)
    requires n < |placed| && LocIs(was, loc, placed, n, i)
    requires loc' == if IsFor(was.bytes, placed, n, i) then Some(placed[n].loc) else loc
    ensures LocIs(was, loc', placed, n + 1, i)
  {
    forall k: nat | LastFor(was.bytes, placed, n + 1, k, i) ensures loc' == Some(placed[k].loc) {
      if k < n {
        assert !IsFor(was.bytes, placed, n, i);
        assert LastFor(was.bytes, placed, n, k, i);
      }
    }
  }

  /** So for every slot, and only places change. */
  ghost predicate Located(before: map<nat, Slot>, after: map<nat, Slot>, placed: seq<Placed>, n: nat) {
    && after.Keys == before.Keys
    && forall i <- before :: LocIs(before[i], after[i].loc, placed, n, i)
  }

  ghost predicate SameBytes(before: map<nat, Slot>, after: map<nat, Slot>) {
    after.Keys == before.Keys && forall i <- before :: after[i].bytes == before[i].bytes
  }

  /** One placement. */
  function PlaceOne(entries: map<nat, Slot>, p: Placed): map<nat, Slot> {
    if p.index in entries && entries[p.index].bytes == Some(p.bytes)
    then entries[p.index := entries[p.index].(loc := Some(p.loc))] else entries
  }

  lemma PlacedNext(first: map<nat, Slot>, before: map<nat, Slot>, placed: seq<Placed>, k: nat)
    requires k < |placed| && SameBytes(first, before) && Located(first, before, placed, k)
    ensures SameBytes(first, PlaceOne(before, placed[k])) && Located(first, PlaceOne(before, placed[k]), placed, k + 1)
  {
    var after := PlaceOne(before, placed[k]);
    forall i <- first ensures LocIs(first[i], after[i].loc, placed, k + 1, i) {
      LocNext(first[i], before[i].loc, placed, k, i, after[i].loc);
    }
  }

  const REPLICATION_BYTES: nat := 1024 * 1024

  /** All the bytes of `lo..hi` are one entry's. */
  ghost predicate OneLarge(log: map<nat, Data>, lo: nat, hi: nat) {
    exists j <- log :: lo <= j < hi && Size(log, lo, hi) == |log[j]|
  }

  predicate OnDisk(disk: map<Loc, Data>, p: Placed) {
    p.loc in disk && disk[p.loc] == p.bytes.data && p.loc.len == |p.bytes.data|
  }

  lemma Dropped(before: map<nat, Slot>, i: nat, top: nat)
    requires i in before && before[i].bytes.Some? && i < top
    ensures Cached(before[i := before[i].(bytes := None)], 0, top) + |before[i].bytes.value.data| == Cached(before, 0, top)
  {
    var after := before[i := before[i].(bytes := None)];
    CachedSplit(before, 0, i, top);
    CachedSplit(before, i, i + 1, top);
    CachedSplit(after, 0, i, top);
    CachedSplit(after, i, i + 1, top);
    CachedSame(after, before, 0, i);
    CachedSame(after, before, i + 1, top);
  }

  lemma KeptBelow(before: map<nat, Slot>, after: map<nat, Slot>, index: nat, top: nat)
    requires after == map i | i in before && i < index :: before[i]
    ensures Cached(after, 0, top) == if index < top then Cached(before, 0, index) else Cached(before, 0, top)
  {
    if index < top {
      CachedSplit(after, 0, index, top);
      CachedSame(after, before, 0, index);
      CachedNone(after, index, top);
    } else {
      CachedSame(after, before, 0, top);
    }
  }

  lemma KeptAbove(before: map<nat, Slot>, after: map<nat, Slot>, index: nat, end: nat, top: nat)
    requires after == map i | i in before && i > index :: before[i]
    requires end <= top && (end == index + 1 || (end == top <= index + 1))
    ensures Cached(after, 0, top) == Cached(before, end, top)
  {
    CachedSplit(after, 0, end, top);
    CachedNone(after, 0, end);
    CachedSame(after, before, end, top);
  }

  lemma AllBelow(entries: map<nat, Slot>, log: map<nat, Data>, disk: map<Loc, Data>, top: nat, index: nat)
    requires Stands(entries, log, disk, top) && forall i <- log :: i < index
    ensures forall i <- entries :: i < index && i < top
  {
    forall i <- entries ensures i < index && i < top { assert SlotAt(entries, log, disk, top, i); }
  }

  lemma StandsWith(entries: map<nat, Slot>, log: map<nat, Data>, disk: map<Loc, Data>, top: nat,
                   index: nat, slot: Slot, top': nat)
    requires Stands(entries, log, disk, top) && top <= top' && index < top'
    requires slot.bytes.Some? && slot.loc.None?
    ensures Stands(entries[index := slot], log[index := slot.bytes.value.data], disk, top')
  {
    var entries', log' := entries[index := slot], log[index := slot.bytes.value.data];
    forall i: nat ensures SlotAt(entries', log', disk, top', i) { assert SlotAt(entries, log, disk, top, i); }
  }

  lemma UncachedWith(entries: map<nat, Slot>, entries': map<nat, Slot>, cursor: nat, index: nat, slot: Slot)
    requires cursor <= index && entries' == entries[index := slot] && forall i: nat :: i < cursor ==> Uncached(entries, i)
    ensures forall i: nat :: i < cursor ==> Uncached(entries', i)
  {
    forall i: nat | i < cursor ensures Uncached(entries', i) { assert Uncached(entries, i); }
  }

  lemma Added(before: map<nat, Slot>, index: nat, slot: Slot, top: nat, top': nat)
    requires (forall i <- before :: i < index && i < top) && slot.bytes.Some?
    requires top' == if top <= index then index + 1 else top
    ensures Cached(before[index := slot], 0, top') == Cached(before, 0, top) + |slot.bytes.value.data|
  {
    var after := before[index := slot];
    CachedSplit(after, 0, index, top');
    CachedSplit(after, index, index + 1, top');
    CachedSame(after, before, 0, index);
    CachedNone(after, index + 1, top');
    if top <= index {
      CachedSplit(before, 0, top, index);
      CachedNone(before, top, index);
    } else {
      CachedSplit(before, 0, index, top);
      CachedNone(before, index, top);
    }
  }
}
