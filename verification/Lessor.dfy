/** Lease deadlines in the leader's RAM. Time is this member's monotonic clock;
    every public call is one atomic step between which time passes and leases
    are granted, kept alive through the log and revoked. */
module Lessor {

  /** A 64-bit lease id. */
  type LeaseId = x: int | -0x8000_0000_0000_0000 <= x < 0x8000_0000_0000_0000

  datatype Renewal = Renewed(ttl: int) | NotFound | Propose

  /** A granted TTL as a duration. */
  function Ttl(secs: int): nat { if secs < 0 then 0 else secs }

  function Max(a: nat, b: nat): nat { if a < b then b else a }

  /** The RAM deadlines, when this member applied each lease's grant or last logged keep-alive, and
      the time. */
  datatype Times = Times(deadlines: map<LeaseId, nat>, appliedAt: map<LeaseId, nat>, now: nat)

  /** The leader's deadline for a lease: the later of its RAM deadline and its TTL from the grant or
      keep-alive this member applied last. One without a RAM deadline counts from that, or from now. */
  function Effective(t: Times, id: LeaseId, secs: int): nat {
    var applied := if id in t.appliedAt then t.appliedAt[id] + Ttl(secs) else t.now + Ttl(secs);
    if id !in t.deadlines then applied
    else if id in t.appliedAt then Max(t.deadlines[id], applied)
    else t.deadlines[id]
  }

  /** The lease's deadline is at `at` or before: its RAM deadline is, and so are its seconds from the grant or
      keep-alive this member applied last, or from now if there is neither. */
  predicate DueBy(t: Times, id: LeaseId, secs: int, at: nat) {
    && (id in t.deadlines ==> t.deadlines[id] <= at)
    && (id in t.appliedAt ==> t.appliedAt[id] <= at && t.appliedAt[id] + secs <= at)
    && (id !in t.deadlines && id !in t.appliedAt ==> t.now <= at && t.now + secs <= at)
  }

  /** So the effective deadline is the latest of those, in the lease's own seconds. */
  lemma EffectiveExactly(t: Times, id: LeaseId, secs: int, at: nat)
    ensures Effective(t, id, secs) <= at <==> DueBy(t, id, secs, at)
  {
  }

  /** A lease's own seconds from `now`; one with none left is due at once. */
  predicate FullFrom(deadline: nat, now: nat, secs: int) { deadline == if secs >= 0 then now + secs else now }

  /** The RAM deadline is not left over from an earlier grant with a longer TTL. */
  predicate NoLeftover(t: Times, id: LeaseId, secs: int) {
    id in t.deadlines ==> t.deadlines[id] <= t.now + Ttl(secs)
  }

  /** From `t` to `u` no lease's deadline moves back, unless it was left over. */
  ghost predicate NeverSooner(leases: map<LeaseId, int>, t: Times, u: Times) {
    forall id :: NotSooner(leases, t, u, id)
  }

  ghost predicate NotSooner(leases: map<LeaseId, int>, t: Times, u: Times, id: LeaseId) {
    id in leases && NoLeftover(t, id, leases[id]) ==>
      NoLeftover(u, id, leases[id]) && Effective(t, id, leases[id]) <= Effective(u, id, leases[id])
  }

  lemma NeverSoonerTransitive(leases: map<LeaseId, int>, t: Times, u: Times, v: Times)
    requires NeverSooner(leases, t, u) && NeverSooner(leases, u, v)
    ensures NeverSooner(leases, t, v)
  {
    forall id ensures NotSooner(leases, t, v, id) {
      assert NotSooner(leases, t, u, id) && NotSooner(leases, u, v, id);
    }
  }

  /** A full TTL after the promotion and after the last Renewed. */
  ghost predicate FullTtl(t: Times, promotedAt: nat, renewedAt: map<LeaseId, nat>, id: LeaseId, secs: int) {
    && Effective(t, id, secs) >= promotedAt + Ttl(secs)
    && (id in renewedAt ==> Effective(t, id, secs) >= renewedAt[id] + Ttl(secs))
  }

  ghost predicate AllFullTtl(t: Times, promotedAt: nat, renewedAt: map<LeaseId, nat>, leases: map<LeaseId, int>) {
    forall id <- leases :: FullTtl(t, promotedAt, renewedAt, id, leases[id])
  }

  class Lessor {
    var leading: bool
    var term: nat
    /** The term the RAM deadlines are for. */
    var ramTerm: nat
    var times: Times
    var leases: map<LeaseId, int>
    /** When this term's deadlines were made, and when each lease was last told Renewed. */
    ghost var promotedAt: nat
    ghost var renewedAt: map<LeaseId, nat>

    ghost predicate Valid()
      reads this
    {
      && promotedAt <= times.now && ramTerm <= term && (leading ==> term > 0)
      && (forall id <- times.appliedAt :: times.appliedAt[id] <= times.now)
      && (forall id <- renewedAt :: renewedAt[id] <= times.now)
      && (leading && ramTerm == term ==> AllFullTtl(times, promotedAt, renewedAt, leases))
    }

    constructor ()
      ensures Valid() && leases == map[] && !leading && term == 0 && times == Times(map[], map[], 0)
    {
      leading, term, ramTerm, times, leases := false, 0, 0, Times(map[], map[], 0), map[];
      promotedAt, renewedAt := 0, map[];
    }

    // ---------- The lessor's calls ----------

    /** Make sure this term's deadlines exist: the first time in a term, every lease gets a full TTL
        from now. */
    method Promote() returns (ok: bool)
      requires Valid()
      modifies this`ramTerm, this`times, this`promotedAt
      ensures Valid() && ok == leading && (ok ==> ramTerm == term)
      ensures times.now == old(times.now) && times.appliedAt == old(times.appliedAt)
      ensures NeverSooner(leases, old(times), times)
      ensures !ok || old(ramTerm) == term ==> times == old(times)
      ensures promotedAt == if ok && old(ramTerm) != term then times.now else old(promotedAt)
      ensures ok && old(ramTerm) != term ==> times.deadlines.Keys == leases.Keys
      ensures ok && old(ramTerm) != term ==> forall id <- leases :: FullFrom(times.deadlines[id], times.now, leases[id])
    {
      if leading && ramTerm != term {
        times := times.(deadlines := map id | id in leases :: times.now + Ttl(leases[id]));
        ramTerm, promotedAt := term, times.now;
      }
      return leading;
    }

    /** The effective deadline, noting it in RAM if there was none. */
    method EffectiveDeadline(id: LeaseId) returns (d: nat)
      requires Valid() && id in leases
      modifies this`times
      ensures Valid() && d == Effective(old(times), id, leases[id])
      ensures times.deadlines == if id in old(times.deadlines) then old(times.deadlines) else old(times.deadlines)[id := d]
      ensures times.now == old(times.now) && times.appliedAt == old(times.appliedAt)
      ensures SameDeadlines(leases, old(times), times) && NeverSooner(leases, old(times), times)
    {
      d := Effective(times, id, leases[id]);
      if id !in times.deadlines { times := times.(deadlines := times.deadlines[id := d]); }
      assert SameDeadlines(leases, old(times), times);
    }

    /** A keep-alive. `ramMode` is whether every member honours RAM deadlines, `confirmed` whether the
        read barrier passed. */
    method Renew(id: LeaseId, ramMode: bool, confirmed: bool) returns (r: Renewal)
      requires Valid()
      modifies this`ramTerm, this`times, this`promotedAt, this`renewedAt
      ensures Valid() && NeverSooner(leases, old(times), times) && times.now == old(times.now)
      ensures r == Propose <==> !leading || !ramMode || !confirmed
      ensures r.Renewed? ==> id in leases && r.ttl == leases[id]
      ensures renewedAt == if r.Renewed? then old(renewedAt)[id := times.now] else old(renewedAt)
      ensures r.Renewed? ==> id in times.deadlines && FullFrom(times.deadlines[id], times.now, leases[id])
      ensures r == NotFound ==> id !in leases || DueBy(times, id, leases[id], times.now)
      ensures r != Propose && old(ramTerm) == term ==>
        (r.Renewed? <==> id in leases && !DueBy(old(times), id, leases[id], times.now))
      ensures r != Propose && old(ramTerm) != term ==> (r.Renewed? <==> id in leases && leases[id] > 0)
    {
      if !leading || !ramMode || !confirmed { return Propose; }
      var _ := Promote();
      if id !in leases { return NotFound; }
      EffectiveExactly(times, id, leases[id], times.now);
      ghost var promoted := times;
      var d := EffectiveDeadline(id);
      EffectiveExactly(times, id, leases[id], times.now);
      NeverSoonerTransitive(leases, old(times), promoted, times);
      if d <= times.now { return NotFound; }
      ghost var noted := times;
      Restart(id);
      NeverSoonerTransitive(leases, old(times), noted, times);
      r := Renewed(leases[id]);
    }

    /** The lease's TTL starts again now. */
    method Restart(id: LeaseId)
      requires Valid() && id in leases
      modifies this`times, this`renewedAt
      ensures Valid() && NeverSooner(leases, old(times), times) && renewedAt == old(renewedAt)[id := times.now]
      ensures times == old(times).(deadlines := old(times).deadlines[id := old(times).now + Ttl(leases[id])])
    {
      times := times.(deadlines := times.deadlines[id := times.now + Ttl(leases[id])]);
      renewedAt := renewedAt[id := times.now];
    }

    /** Drop the RAM deadlines of leases that are gone. */
    method Prune()
      requires Valid()
      modifies this`times
      ensures Valid() && NeverSooner(leases, old(times), times) && SameDeadlines(leases, old(times), times)
      ensures times.now == old(times).now && times.appliedAt == old(times).appliedAt
      ensures forall id :: id in times.deadlines <==>
        id in old(times.deadlines) && (id in leases || |old(times.deadlines)| <= |leases|)
      ensures forall id <- times.deadlines :: times.deadlines[id] == old(times.deadlines)[id]
    {
      if |times.deadlines| > |leases| {
        times := times.(deadlines := map id | id in times.deadlines && id in leases :: times.deadlines[id]);
        assert SameDeadlines(leases, old(times), times);
      }
    }

    /** The leases to revoke: exactly those whose deadline has passed. None of them sooner than a full TTL
        after this term's promotion, its last Renewed, and its last applied grant or keep-alive. */
    method Expired() returns (ids: set<LeaseId>)
      requires Valid()
      modifies this`ramTerm, this`times, this`promotedAt
      ensures Valid() && NeverSooner(leases, old(times), times) && (!leading ==> ids == {})
      ensures leading ==> forall id :: id in ids <==> id in leases && DueBy(times, id, leases[id], times.now)
      ensures leading && old(ramTerm) == term ==>
        forall id :: id in ids <==> id in leases && DueBy(old(times), id, leases[id], times.now)
      ensures leading && old(ramTerm) != term ==> forall id :: id in ids <==> id in leases && leases[id] <= 0
      ensures forall id <- ids :: times.now >= promotedAt + leases[id]
      ensures forall id <- ids :: id in renewedAt ==> times.now >= renewedAt[id] + leases[id]
      ensures forall id <- ids :: id in times.appliedAt ==> times.now >= times.appliedAt[id] + leases[id]
    {
      var ok := Promote();
      if !ok { return {}; }
      ghost var promoted := times;
      Prune();
      NeverSoonerTransitive(leases, old(times), promoted, times);
      ghost var pruned := times;
      ids := Sweep();
      NeverSoonerTransitive(leases, old(times), pruned, times);
      SweptDue(leases, promoted, times, ids);
      if old(ramTerm) != term { PromotedDue(leases, promoted, ids); }
    }

    /** Ask for every lease's effective deadline. */
    method Sweep() returns (ids: set<LeaseId>)
      requires Valid()
      modifies this`times
      ensures Valid() && NeverSooner(leases, old(times), times) && SameDeadlines(leases, old(times), times)
      ensures times.now == old(times.now) && times.appliedAt == old(times.appliedAt)
      ensures forall id :: id in ids <==> id in leases && Effective(times, id, leases[id]) <= times.now
    {
      ids := {};
      var todo: set<LeaseId> := leases.Keys;
      while todo != {}
        invariant Valid() && todo <= leases.Keys
        invariant NeverSooner(leases, old(times), times) && SameDeadlines(leases, old(times), times)
        invariant times.now == old(times.now) && times.appliedAt == old(times.appliedAt)
        invariant forall id :: id in ids <==> id in leases && id !in todo && Effective(times, id, leases[id]) <= times.now
      {
        var id: LeaseId :| id in todo;
        ghost var before := times;
        var d := EffectiveDeadline(id);
        NeverSoonerTransitive(leases, old(times), before, times);
        if d <= times.now { ids := ids + {id}; }
        todo := todo - {id};
      }
    }

    // ---------- What happens around it ----------

    method Tick(elapsed: nat)
      requires Valid()
      modifies this`times
      ensures Valid() && times == old(times).(now := old(times.now) + elapsed)
      ensures NeverSooner(leases, old(times), times)
    {
      times := times.(now := times.now + elapsed);
    }

    /** A new term, led by this member or not. Deadlines of an older term are not used in it. */
    method NewTerm(next: nat, leads: bool)
      requires Valid() && next > term
      modifies this`term, this`leading
      ensures Valid() && term == next && leading == leads
    {
      term, leading := next, leads;
    }

    method StepDown()
      requires Valid()
      modifies this`leading
      ensures Valid() && !leading
    {
      leading := false;
    }

    /** A keep-alive through the log is applied. */
    method ApplyKeepAlive(id: LeaseId)
      requires Valid()
      modifies this`times
      ensures Valid() && NeverSooner(leases, old(times), times)
      ensures times == if id in leases then old(times).(appliedAt := old(times).appliedAt[id := old(times).now]) else old(times)
    {
      if id in leases { times := times.(appliedAt := times.appliedAt[id := times.now]); }
    }

    /** A grant is applied; the others keep their deadlines. */
    method ApplyGrant(id: LeaseId, secs: int)
      requires Valid() && id !in leases
      modifies this`leases, this`times, this`renewedAt
      ensures Valid() && leases == old(leases)[id := secs] && Effective(times, id, secs) >= times.now + Ttl(secs)
      ensures times == old(times).(appliedAt := old(times).appliedAt[id := times.now])
      ensures NeverSooner(old(leases), old(times), times)
    {
      leases, renewedAt := leases[id := secs], renewedAt - {id};
      times := times.(appliedAt := times.appliedAt[id := times.now]);
    }

    /** A revoke is applied. The RAM deadline stays until a sweep drops it. */
    method ApplyRevoke(id: LeaseId)
      requires Valid()
      modifies this`leases, this`times, this`renewedAt
      ensures Valid() && leases == old(leases) - {id} && times == old(times).(appliedAt := old(times).appliedAt - {id})
      ensures NeverSooner(leases, old(times), times)
    {
      leases, renewedAt := leases - {id}, renewedAt - {id};
      times := times.(appliedAt := times.appliedAt - {id});
    }
  }

  ghost predicate SameDeadlines(leases: map<LeaseId, int>, t: Times, u: Times) {
    forall id <- leases :: Effective(t, id, leases[id]) == Effective(u, id, leases[id])
  }

  /** What a sweep lists is due before it and after it. */
  lemma SweptDue(leases: map<LeaseId, int>, t: Times, u: Times, ids: set<LeaseId>)
    requires SameDeadlines(leases, t, u) && t.now == u.now
    requires forall id :: id in ids <==> id in leases && Effective(u, id, leases[id]) <= u.now
    ensures forall id :: id in ids <==> id in leases && DueBy(u, id, leases[id], u.now)
    ensures forall id :: id in ids <==> id in leases && DueBy(t, id, leases[id], t.now)
  {
    forall id | id in leases ensures DueBy(u, id, leases[id], u.now) <==> DueBy(t, id, leases[id], t.now) {
      EffectiveExactly(t, id, leases[id], t.now);
      EffectiveExactly(u, id, leases[id], u.now);
    }
    forall id | id in leases ensures id in ids <==> DueBy(u, id, leases[id], u.now) {
      EffectiveExactly(u, id, leases[id], u.now);
    }
  }

  /** Right after a promotion only leases without time are due. */
  lemma PromotedDue(leases: map<LeaseId, int>, t: Times, ids: set<LeaseId>)
    requires t.deadlines.Keys == leases.Keys && (forall id <- leases :: FullFrom(t.deadlines[id], t.now, leases[id]))
    requires forall id <- t.appliedAt :: t.appliedAt[id] <= t.now
    requires forall id :: id in ids <==> id in leases && DueBy(t, id, leases[id], t.now)
    ensures forall id :: id in ids <==> id in leases && leases[id] <= 0
  {
  }

  /** A promotion or a renewal leaves a lease exactly a full TTL from now, so it takes time away exactly from
      leases whose RAM deadline is later than that. */
  lemma PromotionExact(t: Times, id: LeaseId, secs: int)
    requires id in t.appliedAt ==> t.appliedAt[id] <= t.now
    ensures var promoted := t.(deadlines := t.deadlines[id := t.now + Ttl(secs)]);
            Effective(t, id, secs) <= Effective(promoted, id, secs) <==> NoLeftover(t, id, secs)
  {
  }

  /** A lease revoked and granted again with a shorter TTL keeps the old RAM deadline, here until the
      next promotion takes it back. */
  method LeftoverTakenBack() returns (before: nat, after: nat)
    ensures after < before
  {
    var l := new Lessor();
    l.NewTerm(1, true);
    l.ApplyGrant(7, 1000);
    ghost var granted := l.times;
    var r := l.Renew(7, true, true);
    assert r.Renewed? by { assert NotSooner(l.leases, granted, l.times, 7); }
    l.ApplyRevoke(7);
    l.ApplyGrant(7, 5);
    before := Effective(l.times, 7, 5);
    l.NewTerm(2, true);
    var _ := l.Promote();
    after := Effective(l.times, 7, 5);
  }
}
