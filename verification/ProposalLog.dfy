/** Proposals counted per log index: recorded as entries are applied, forgotten as
    the log is purged, and asked where a purge may go. */
module ProposalLog {

  import opened Common

  // ---------- The full history ----------

  /** Every recorded `(index, proposals)`, and the proposals of the first `n` of them. */
  function Total(all: seq<(nat, nat)>, n: nat): nat
    requires n <= |all|
  {
    if n == 0 then 0 else Total(all, n - 1) + all[n - 1].1
  }

  /** The proposals recorded at indexes up to `index`. */
  function Cumulative(all: seq<(nat, nat)>, index: nat): nat {
    if all == [] then 0
    else Cumulative(all[..|all| - 1], index) + if all[|all| - 1].0 <= index then all[|all| - 1].1 else 0
  }

  /** A sum: one entry counts its proposals if it is at or below the index, and several add up. */
  lemma {:induction false} CumulativeAdds(a: seq<(nat, nat)>, b: seq<(nat, nat)>, index: nat)
    ensures Cumulative(a + b, index) == Cumulative(a, index) + Cumulative(b, index)
    ensures |b| == 1 ==> Cumulative(b, index) == if b[0].0 <= index then b[0].1 else 0
    decreases |b|
  {
    if b == [] {
      assert a + b == a;
    } else {
      CumulativeAdds(a, b[..|b| - 1], index);
      assert (a + b)[..|a + b| - 1] == a + b[..|b| - 1];
    }
  }

  ghost predicate Ascending(all: seq<(nat, nat)>) {
    && (forall i, j :: 0 <= i < j < |all| ==> all[i].0 < all[j].0)
    && (forall i :: 0 <= i < |all| ==> all[i].1 > 0)
  }

  lemma {:induction false} TotalPrefix(a: seq<(nat, nat)>, b: seq<(nat, nat)>, n: nat)
    requires n <= |a| <= |b| && b[..|a|] == a
    ensures Total(a, n) == Total(b, n)
  {
    if n > 0 {
      TotalPrefix(a, b, n - 1);
      assert a[n - 1] == b[..|a|][n - 1];
    }
  }

  /** With the indexes ascending, what is recorded up to `index` is the first `n` entries. */
  lemma {:induction false} CumulativeIsTotal(all: seq<(nat, nat)>, n: nat, index: nat)
    requires Ascending(all) && n <= |all|
    requires (n > 0 ==> all[n - 1].0 <= index) && (n < |all| ==> index < all[n].0)
    ensures Cumulative(all, index) == Total(all, n)
    decreases |all|
  {
    if all != [] {
      var front := all[..|all| - 1];
      if n == |all| {
        if n > 1 { assert front[n - 2].0 < all[n - 1].0; }
        CumulativeIsTotal(front, n - 1, index);
        TotalPrefix(front, all, n - 1);
      } else {
        assert n < |front| ==> index < front[n].0;
        CumulativeIsTotal(front, n, index);
        TotalPrefix(front, all, n);
      }
    }
  }

  class Log {
    /** `(index, proposals up to and including it)`, ascending. */
    var entries: seq<(nat, nat)>
    /** The newest entry forgotten. */
    var floor: (nat, nat)
    var total: nat
    ghost var all: seq<(nat, nat)>
    ghost var forgotten: nat

    ghost predicate Valid()
      reads this
    {
      && Ascending(all) && forgotten <= |all| && |entries| == |all| - forgotten
      && (forall j :: 0 <= j < |entries| ==> Entered(all, forgotten, entries, j))
      && floor == (if forgotten == 0 then (0, 0) else EntryAt(all, forgotten - 1))
      && total == Total(all, |all|)
    }

    constructor ()
      ensures Valid() && all == []
    {
      entries, floor, total, all, forgotten := [], (0, 0), 0, [], 0;
    }

    /** The entry at `index` held `n` proposals. */
    method Record(index: nat, n: nat)
      requires Valid() && (all != [] ==> all[|all| - 1].0 < index)
      modifies this
      ensures Valid() && all == (if n == 0 then old(all) else old(all) + [(index, n)]) && forgotten == old(forgotten)
    {
      if n == 0 { return; }
      ghost var before := all;
      total := total + n;
      entries := entries + [(index, total)];
      all := all + [(index, n)];
      forall k | 0 <= k <= |before| ensures Total(all, k) == Total(before, k) { TotalPrefix(before, all, k); }
      forall j | 0 <= j < |entries| ensures Entered(all, forgotten, entries, j) {
        assert j < |entries| - 1 ==> Entered(before, forgotten, old(entries), j);
      }
    }

    /** How many entries are at indexes up to `index`. */
    function PartitionPoint(index: nat, n: nat): (r: nat)
      requires n <= |entries| && forall j :: 0 <= j < n ==> entries[j].0 <= index
      reads this
      ensures r <= |entries| && (forall j :: 0 <= j < r ==> entries[j].0 <= index)
      ensures r < |entries| ==> entries[r].0 > index
      decreases |entries| - n
    {
      if n == |entries| || entries[n].0 > index then n else PartitionPoint(index, n + 1)
    }

    /** The proposals up to `index`: right from the floor up, whatever has been forgotten. */
    method CumulativeAt(index: nat) returns (c: nat)
      requires Valid()
      ensures index >= floor.0 ==> c == Cumulative(all, index)
      ensures index < floor.0 ==> c == 0
    {
      var n := PartitionPoint(index, 0);
      ghost var k := forgotten + n;
      assert n > 0 ==> Entered(all, forgotten, entries, n - 1);
      assert n < |entries| ==> Entered(all, forgotten, entries, n);
      if n > 0 {
        CumulativeIsTotal(all, k, index);
        return entries[n - 1].1;
      }
      if index >= floor.0 {
        CumulativeIsTotal(all, k, index);
        return floor.1;
      }
      return 0;
    }

    /** Where to purge after a snapshot: the newest retained index that leaves at least `keep` proposals
        up to the snapshot. */
    method PurgePoint(snapshot: nat, keep: nat) returns (point: Option<nat>)
      requires Valid()
      ensures keep == 0 ==> point == Some(snapshot)
      ensures keep > 0 && point.Some? ==> exists j :: 0 <= j < |entries| && entries[j].0 == point.value
      ensures keep > 0 && point.Some? ==> Leaves(all, snapshot, keep, point.value)
      ensures keep > 0 ==> forall j :: 0 <= j < |entries| && (point.None? || entries[j].0 > point.value) ==>
        !Leaves(all, snapshot, keep, entries[j].0)
    {
      var at := CumulativeAt(snapshot);
      if keep == 0 { return Some(snapshot); }
      point := None;
      var i := 0;
      while i < |entries|
        invariant i <= |entries| && point == if i == 0 then None else Some(entries[i - 1].0)
        invariant i > 0 ==> Leaves(all, snapshot, keep, entries[i - 1].0)
      {
        Counts(i, snapshot, at);
        if entries[i].0 > snapshot { break; }
        var after: nat := at - entries[i].1;
        if after < keep { break; }
        point := Some(entries[i].0);
        i := i + 1;
      }
      forall j | 0 <= j < |entries| && (point.None? || entries[j].0 > point.value)
        ensures !Leaves(all, snapshot, keep, entries[j].0)
      {
        Later(i, j);
      }
    }

    /** Forget the entries the log no longer has. */
    method ForgetUpto(index: nat)
      requires Valid()
      modifies this`entries, this`floor, this`forgotten
      ensures Valid() && forgotten >= old(forgotten)
      ensures forall j :: 0 <= j < |entries| ==> entries[j].0 > index
      ensures forgotten > old(forgotten) ==> floor.0 <= index
    {
      while entries != [] && entries[0].0 <= index
        invariant Valid() && forgotten >= old(forgotten) && (forgotten > old(forgotten) ==> floor.0 <= index)
        decreases |entries|
      {
        ForgetOne();
      }
      forall j | 0 <= j < |entries| ensures entries[j].0 > index {
        assert Entered(all, forgotten, entries, 0) && Entered(all, forgotten, entries, j);
      }
    }

    method ForgetOne()
      requires Valid() && entries != []
      modifies this`entries, this`floor, this`forgotten
      ensures Valid() && entries == old(entries)[1..] && floor == old(entries)[0] && forgotten == old(forgotten) + 1
    {
      assert Entered(all, forgotten, entries, 0);
      floor, entries, forgotten := entries[0], entries[1..], forgotten + 1;
      forall j | 0 <= j < |entries| ensures Entered(all, forgotten, entries, j) {
        assert Entered(all, forgotten - 1, old(entries), j + 1);
      }
    }

    // ---------- Facts about the entries ----------

    /** An entry's count is the cumulative count at its index. */
    lemma EntryCount(j: nat)
      requires Valid() && j < |entries|
      ensures entries[j].1 == Cumulative(all, entries[j].0)
    {
      assert Entered(all, forgotten, entries, j);
      CumulativeIsTotal(all, forgotten + j + 1, entries[j].0);
    }

    /** An entry up to the snapshot counts no more than the snapshot: the subtraction is safe. */
    lemma Counts(j: nat, snapshot: nat, at: nat)
      requires Valid() && j < |entries|
      requires snapshot >= floor.0 ==> at == Cumulative(all, snapshot)
      ensures entries[j].1 == Cumulative(all, entries[j].0)
      ensures entries[j].0 <= snapshot ==> at == Cumulative(all, snapshot) && entries[j].1 <= at
    {
      EntryCount(j);
      assert Entered(all, forgotten, entries, j);
      if entries[j].0 <= snapshot { CumulativeGrows(all, entries[j].0, snapshot); }
    }

    /** An entry after position `i - 1`'s comes at `i` or later, and counts no less than the one at `i`. */
    lemma Later(i: nat, j: nat)
      requires Valid() && i <= |entries| && j < |entries|
      requires i > 0 ==> entries[j].0 > entries[i - 1].0
      ensures i <= j && entries[i].0 <= entries[j].0
      ensures Cumulative(all, entries[i].0) <= Cumulative(all, entries[j].0)
    {
      assert Entered(all, forgotten, entries, j);
      if i > 0 { assert Entered(all, forgotten, entries, i - 1); }
      assert i <= j;
      assert Entered(all, forgotten, entries, i);
      CumulativeGrows(all, entries[i].0, entries[j].0);
    }
  }

  lemma {:induction false} CumulativeGrows(all: seq<(nat, nat)>, a: nat, b: nat)
    requires a <= b
    ensures Cumulative(all, a) <= Cumulative(all, b)
  {
    if all != [] { CumulativeGrows(all[..|all| - 1], a, b); }
  }

  /** Entry `k` of the full history with its cumulative count. */
  function EntryAt(all: seq<(nat, nat)>, k: nat): (nat, nat)
    requires k < |all|
  {
    (all[k].0, Total(all, k + 1))
  }

  ghost predicate Entered(all: seq<(nat, nat)>, forgotten: nat, entries: seq<(nat, nat)>, j: nat) {
    j < |entries| && forgotten + j < |all| && EntryAt(all, forgotten + j) == entries[j]
  }

  /** At least `keep` proposals lie after `p`, up to the snapshot. */
  predicate Leaves(all: seq<(nat, nat)>, snapshot: nat, keep: nat, p: nat) {
    p <= snapshot && Cumulative(all, p) + keep <= Cumulative(all, snapshot)
  }
}
