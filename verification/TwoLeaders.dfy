/** A run with two leaders in one term. The first is confirmed by a member that
    voted for both, and releases a read that misses a write the second answered. */
module TwoLeaders {

  import opened Common
  import opened ReadIndex

  lemma {:induction false} OneMore(s: State, steps: seq<Step>, t: State, step: Step) returns (steps': seq<Step>, u: State)
    requires Reaches(s, steps, t) && Enabled(t, step)
    ensures Reaches(s, steps', u) && u == Do(t, step)
    decreases |steps|
  {
    if steps == [] {
      steps', u := [step], Do(t, step);
      assert steps'[1..] == [];
    } else {
      var rest;
      rest, u := OneMore(Do(s, steps[0]), steps[1..], t, step);
      steps' := [steps[0]] + rest;
      assert steps'[1..] == rest;
    }
  }

  /** Two leader ids a term. */
  function Halves(): nat -> nat { (id: nat) => id / 2 }

  function Three(a: Member, b: Member, c: Member): map<nat, Member> { map[1 := a, 2 := b, 3 := c] }

  function Cluster(nodes: map<nat, Member>, led: map<nat, Lead>, committed: set<Ack>, acked: seq<Ack>): State {
    State(Halves(), [{1, 2, 3}], nodes, led, committed, acked)
  }

  /** A member that has noted a first index. */
  function Knows(saved: nat, applied: nat, ts: (nat, nat), noted: nat): Member {
    Member(saved, applied, applied, ts, noted, 0, None, None, map[])
  }

  lemma TwoOfThree(a: nat, b: nat)
    requires a in {1, 2, 3} && b in {1, 2, 3} && a != b
    ensures Quorum([{1, 2, 3}], {a, b})
  {
    assert {1, 2, 3} * {a, b} == {a, b};
    assert |{a, b}| == 2;
    assert {1, 2, 3} - {1} == {2, 3} && {2, 3} - {2} == {3};
  }

  const First := Lead(1, 1, {1, 3}, false)
  const Second := Lead(2, 1, {2, 3}, false)

  /** Both are elected, and written their first entries if `blank`. */
  function Both(blank: bool): map<nat, Lead> { map[2 := First.(blank := blank), 3 := Second.(blank := blank)] }

  /** `reached` holds of whatever a step leads to from a state it holds of. */
  ghost predicate Closed(reached: State -> bool) {
    forall s: State, step: Step :: Enabled(s, step) && reached(s) ==> reached(Do(s, step))
  }

  function Start(): State { Cluster(Three(Booted(0), Booted(0), Booted(0)), map[], {}, []) }

  /** Member 1 stands in term 1, and 3 votes for it. */
  lemma FirstElected(reached: State -> bool)
    requires Closed(reached) && reached(Start())
    ensures reached(Cluster(Three(Booted(2), Booted(0), Booted(2)), map[2 := First], {}, []))
  {
    var t := Do(Do(Start(), SaveVote(1, 2)), SaveVote(3, 2));
    assert t.nodes == Three(Booted(2), Booted(0), Booted(2));
    TwoOfThree(1, 3);
    assert 1 in t.configs[0];
    t := Do(t, Elect(1, 2, 1, {1, 3}));
    assert t.led == map[2 := First];
  }

  /** So does 2, and 3 votes for it as well: its id is the higher one. */
  lemma BothElected(reached: State -> bool)
    requires Closed(reached) && reached(Cluster(Three(Booted(2), Booted(0), Booted(2)), map[2 := First], {}, []))
    ensures reached(Cluster(Three(Booted(2), Booted(3), Booted(3)), Both(false), {}, []))
  {
    var t := Do(Do(Cluster(Three(Booted(2), Booted(0), Booted(2)), map[2 := First], {}, []), SaveVote(2, 3)), SaveVote(3, 3));
    assert t.nodes == Three(Booted(2), Booted(3), Booted(3));
    TwoOfThree(2, 3);
    assert 2 in t.configs[0];
    t := Do(t, Elect(2, 3, 1, {2, 3}));
    assert t.led == Both(false);
  }

  lemma BothStart(reached: State -> bool)
    requires Closed(reached) && reached(Cluster(Three(Booted(2), Booted(3), Booted(3)), Both(false), {}, []))
    ensures reached(Cluster(Three(Knows(2, 0, (1, 1), 2), Knows(3, 0, (1, 1), 3), Booted(3)), Both(true), {}, []))
  {
    var t := Do(Do(Cluster(Three(Booted(2), Booted(3), Booted(3)), Both(false), {}, []), Blank(2)), Blank(3));
    assert t.nodes == Three(Knows(2, 0, (1, 1), 2), Knows(3, 0, (1, 1), 3), Booted(3));
    assert t.led == Both(true);
  }

  /** Member 2 applies an entry, which is committed, and answers it. */
  lemma SecondApplies(reached: State -> bool)
    requires Closed(reached)
    requires reached(Cluster(Three(Knows(2, 0, (1, 1), 2), Knows(3, 0, (1, 1), 3), Booted(3)), Both(true), {}, []))
    ensures reached(Cluster(Three(Knows(2, 0, (1, 1), 2), Knows(3, 2, (1, 1), 3), Booted(3)), Both(true), {}, []))
  {
    var t := Cluster(Three(Knows(2, 0, (1, 1), 2), Knows(3, 0, (1, 1), 3), Booted(3)), Both(true), {}, []);
    t := Do(Do(t, Fsync(2, 2)), Apply(2, 2));
    assert t.nodes == Three(Knows(2, 0, (1, 1), 2), Knows(3, 2, (1, 1), 3), Booted(3));
  }

  lemma SecondAnswers(reached: State -> bool)
    requires Closed(reached)
    requires reached(Cluster(Three(Knows(2, 0, (1, 1), 2), Knows(3, 2, (1, 1), 3), Booted(3)), Both(true), {}, []))
    ensures reached(During(Knows(2, 0, (1, 1), 2)))
  {
    var t := Cluster(Three(Knows(2, 0, (1, 1), 2), Knows(3, 2, (1, 1), 3), Booted(3)), Both(true), {}, []);
    t := Do(t, Commit(3, 2));
    assert t.committed == {Ack(3, 2)};
    t := Do(t, Answer(3, 2));
    assert t == During(Knows(2, 0, (1, 1), 2));
  }

  /** The cluster with member 1 as given. */
  function During(one: Member): State {
    Cluster(Three(one, Knows(3, 2, (1, 1), 3), Booted(3)), Both(true), {Ack(3, 2)}, [Ack(3, 2)])
  }

  lemma DuringPut(one: Member, next: Member)
    ensures Put(During(one), 1, next) == During(next)
  {
    assert Put(During(one), 1, next).nodes == During(next).nodes;
  }

  /** Member 1 while it asks, or has been confirmed, for the one read that waits there. */
  function Asker(round: Option<Round>, last: Option<Last>, index: Option<nat>): Member {
    Member(2, 0, 0, (1, 1), 2, 1, round, last, map[0 := Read(0, 1, index)])
  }

  lemma FirstAsks(reached: State -> bool)
    requires Closed(reached) && reached(During(Knows(2, 0, (1, 1), 2)))
    ensures reached(During(Asker(Some(Begun(1, 1)), None, None)))
  {
    var m, m2 := Knows(2, 0, (1, 1), 2), Asker(Some(Begun(1, 1)), None, None);
    var m1 := m.(waiting := map[0 := Read(0, 1, None)]);
    DuringPut(m, m1);
    assert Do(During(m), Arrive(1, 0)) == During(m1);
    DuringPut(m1, m2);
    assert Do(During(m1), BeginRound(1)) == During(m2);
  }

  /** Member 3 confirms: its saved term is 1's own. */
  lemma FirstConfirmed(reached: State -> bool)
    requires Closed(reached) && reached(During(Asker(Some(Begun(1, 1)), None, None)))
    ensures reached(During(Asker(Some(Asking(1, 1, 1, 1, {1, 3})), None, None)))
  {
    var m, m1 := Asker(Some(Begun(1, 1)), None, None), Asker(Some(Asking(1, 1, 1, 1, {1})), None, None);
    DuringPut(m, m1);
    assert Do(During(m), ReadTerm(1, 2)) == During(m1);
    DuringPut(m1, Asker(Some(Asking(1, 1, 1, 1, {1, 3})), None, None));
    assert {1} + {3} == {1, 3};
    assert Do(During(m1), Confirmed(1, 3)) == During(Asker(Some(Asking(1, 1, 1, 1, {1, 3})), None, None));
  }

  lemma FirstReads(reached: State -> bool)
    requires Closed(reached) && reached(During(Asker(Some(Asking(1, 1, 1, 1, {1, 3})), None, None)))
    ensures reached(During(Asker(None, Some(Last(1, 1, Some(1))), Some(1))))
  {
    var m := Asker(Some(Asking(1, 1, 1, 1, {1, 3})), None, None);
    var m1, m2 := Asker(None, Some(Last(1, 1, Some(1))), None), Asker(None, Some(Last(1, 1, Some(1))), Some(1));
    TwoOfThree(1, 3);
    DuringPut(m, m1);
    assert Do(During(m), EndRound(1)) == During(m1);
    DuringPut(m1, m2);
    assert m1.waiting[0 := Read(0, 1, Some(1))] == m2.waiting;
    assert Do(During(m1), Join(1, 0)) == During(m2);
  }

  /** Member 1 follows 2: its own entry goes, the other's first comes in its place. */
  lemma FirstFollows(reached: State -> bool) returns (m: Member)
    requires Closed(reached) && reached(During(Asker(None, Some(Last(1, 1, Some(1))), Some(1))))
    ensures reached(During(m)) && m.waiting == map[0 := Read(0, 1, Some(1))] && m.applied == m.durable == 0
  {
    m := Asker(None, Some(Last(1, 1, Some(1))), Some(1));
    DuringPut(m, m.(saved := 3));
    assert Do(During(m), SaveVote(1, 3)) == During(m.(saved := 3));
    m := m.(saved := 3);
    DuringPut(m, m.(ts := (0, 0)));
    assert Do(During(m), Truncate(1, 0)) == During(m.(ts := (0, 0)));
    m := m.(ts := (0, 0));
    DuringPut(m, m.(ts := (1, 1), noted := 3));
    assert Do(During(m), Append(1, 3, 1)) == During(m.(ts := (1, 1), noted := 3));
    m := m.(ts := (1, 1), noted := 3);
  }

  /** It applies that entry. */
  lemma FirstApplies(reached: State -> bool, m: Member)
    requires Closed(reached) && reached(During(m)) && m.applied == m.durable == 0
    ensures reached(During(m.(durable := 1, applied := 1)))
  {
    var m1 := m.(durable := 1);
    DuringPut(m, m1);
    assert Do(During(m), Fsync(1, 1)) == During(m1);
    DuringPut(m1, m1.(applied := 1));
    assert Do(During(m1), Apply(1, 1)) == During(m1.(applied := 1));
  }

  lemma ReachedStale(reached: State -> bool) returns (m: Member)
    requires Closed(reached) && reached(Start())
    ensures reached(During(m)) && m.waiting == map[0 := Read(0, 1, Some(1))] && m.applied == 1
  {
    FirstElected(reached);
    BothElected(reached);
    BothStart(reached);
    SecondApplies(reached);
    SecondAnswers(reached);
    FirstAsks(reached);
    FirstConfirmed(reached);
    FirstReads(reached);
    m := FirstFollows(reached);
    FirstApplies(reached, m);
    m := m.(durable := 1, applied := 1);
  }

  ghost predicate Reachable(s: State, t: State) { exists steps :: Reaches(s, steps, t) }

  lemma ReachableIsClosed(s: State)
    ensures Closed((t: State) => Reachable(s, t))
  {
    forall t: State, step: Step | Enabled(t, step) && Reachable(s, t) ensures Reachable(s, Do(t, step)) {
      var before :| Reaches(s, before, t);
      var after, u := OneMore(s, before, t, step);
    }
  }

  /** Read `r` at `n` is released, and write `k`, answered before it arrived, is not applied there. */
  predicate Misses(t: State, n: nat, r: nat, k: nat) {
    && Released(t, n, r) && k < t.nodes[n].waiting[r].seen && k < |t.acked|
    && t.nodes[n].applied < t.acked[k].index
  }

  /** With two leaders in one term, a released read misses a write answered before it arrived. */
  lemma StaleRead()
    ensures Init(Start()) && exists t: State :: Reachable(Start(), t) && Misses(t, 1, 0, 0)
  {
    ReachableIsClosed(Start());
    assert Reaches(Start(), [], Start());
    var m := ReachedStale((u: State) => Reachable(Start(), u));
    assert Misses(During(m), 1, 0, 0);
  }
}
