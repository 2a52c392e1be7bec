/** A member's vote: a record in the WAL, synced before openraft acts on it, and
    read back after a crash. The order of votes is openraft's: by term, then by
    node, then by whether a quorum has granted it. */
module Votes {

  import opened Common

  datatype Vote = Vote(term: nat, node: nat, committed: bool)

  predicate Le(a: Vote, b: Vote) {
    || a.term < b.term
    || (a.term == b.term && (a.node < b.node || (a.node == b.node && (a.committed ==> b.committed))))
  }

  /** `b` is not behind `a`. */
  predicate NotBehind(a: Option<Vote>, b: Option<Vote>) {
    a.None? || (b.Some? && Le(a.value, b.value))
  }

  /** The vote the first `n` records replay to. */
  function Latest(wal: seq<Vote>, n: nat): Option<Vote>
    requires n <= |wal|
  {
    if n == 0 then None else Some(wal[n - 1])
  }

  /** The vote records of the WAL, how many of them are synced, the vote openraft holds, whether a save of
      the next is under way, and the votes it has granted or acted on. */
  datatype State = State(wal: seq<Vote>, synced: nat, held: Option<Vote>, saving: bool, acted: seq<Vote>)

  datatype Step =
    | Save(v: Vote)
    | Sync(n: nat)
    | Saved
    | Act
    | Crash(n: nat)
    | ProcessCrash(n: nat)

  predicate Enabled(s: State, step: Step) {
    match step
    // openraft saves no vote behind the one it holds.
    case Save(v) => !s.saving && NotBehind(s.held, Some(v))
    case Sync(n) => s.synced <= n <= |s.wal|
    case Saved => s.saving && 0 < |s.wal| == s.synced
    case Act => s.held.Some?
    // A power cut, and a crash of the process alone: what is left is read back.
    case Crash(n) => s.synced <= n <= |s.wal|
    case ProcessCrash(n) => s.synced <= n <= |s.wal|
  }

  function Do(s: State, step: Step): State
    requires Enabled(s, step)
  {
    match step
    case Save(v) => s.(wal := s.wal + [v], saving := true)
    case Sync(n) => s.(synced := n)
    case Saved => s.(held := Latest(s.wal, |s.wal|), saving := false)
    case Act => s.(acted := s.acted + [s.held.value])
    case Crash(n) => State(s.wal[..n], n, Latest(s.wal, n), false, s.acted)
    case ProcessCrash(n) => State(s.wal[..n], s.synced, Latest(s.wal, n), false, s.acted)
  }

  /** The condition on a process crash: the vote read back is not newer than the last one synced. */
  predicate SyncedVote(s: State, n: nat)
    requires s.synced <= n <= |s.wal|
  {
    NotBehind(Latest(s.wal, n), Latest(s.wal, s.synced))
  }

  predicate Guarded(s: State, step: Step)
    requires Enabled(s, step)
  {
    step.ProcessCrash? ==> SyncedVote(s, step.n)
  }

  ghost predicate Reaches(s: State, steps: seq<Step>, t: State)
    decreases |steps|
  {
    if steps == [] then s == t
    else Enabled(s, steps[0]) && Guarded(s, steps[0]) && Reaches(Do(s, steps[0]), steps[1..], t)
  }

  const Init := State([], 0, None, false, [])

  /** The records rise, the held vote is the one last saved and would survive a power cut, and it is not
      behind any vote acted on. */
  ghost predicate Inv(s: State) {
    && s.synced <= |s.wal|
    && (forall i, j :: 0 <= i <= j < |s.wal| ==> Le(s.wal[i], s.wal[j]))
    && (s.saving ==> s.wal != [])
    && s.held == Latest(s.wal, if s.saving then |s.wal| - 1 else |s.wal|)
    && NotBehind(s.held, Latest(s.wal, s.synced))
    && forall a <- s.acted :: NotBehind(Some(a), s.held)
  }

  lemma SaveKeepsInv(s: State, v: Vote)
    requires Inv(s) && Enabled(s, Save(v))
    ensures Inv(Do(s, Save(v)))
  {
    var wal := s.wal + [v];
    forall i, j | 0 <= i <= j < |wal| ensures Le(wal[i], wal[j]) {
      if j == |s.wal| && i < j { assert Le(s.wal[i], s.wal[|s.wal| - 1]); }
    }
  }

  /** What a crash leaves is not behind what was held. */
  lemma LaterIsNotBehind(s: State, m: nat, n: nat)
    requires Inv(s) && m <= n <= |s.wal|
    ensures NotBehind(Latest(s.wal, m), Latest(s.wal, n))
  {
  }

  lemma CrashKeepsInv(s: State, step: Step)
    requires Inv(s) && Enabled(s, step) && Guarded(s, step) && (step.Crash? || step.ProcessCrash?)
    ensures Inv(Do(s, step))
  {
    var t := Do(s, step);
    LaterIsNotBehind(s, s.synced, step.n);
    assert t.held == Latest(t.wal, step.n) && Latest(t.wal, s.synced) == Latest(s.wal, s.synced);
    forall a <- t.acted ensures NotBehind(Some(a), t.held) { assert NotBehind(Some(a), s.held); }
  }

  lemma StepKeepsInv(s: State, step: Step)
    requires Inv(s) && Enabled(s, step) && Guarded(s, step)
    ensures Inv(Do(s, step))
  {
    match step
    case Save(v) => SaveKeepsInv(s, v);
    case Crash(_) => CrashKeepsInv(s, step);
    case ProcessCrash(_) => CrashKeepsInv(s, step);
    case _ =>
  }

  lemma {:induction false} EveryRunKeepsInv(s: State, steps: seq<Step>, t: State)
    requires Inv(s) && Reaches(s, steps, t)
    ensures Inv(t)
    decreases |steps|
  {
    if steps != [] {
      StepKeepsInv(s, steps[0]);
      EveryRunKeepsInv(Do(s, steps[0]), steps[1..], t);
    }
  }

  /** In every run whose process crashes meet the condition, the held vote is never behind one that was
      granted or acted on, so the term a member answers with never falls, across crashes of both kinds. */
  lemma VoteNeverFalls(steps: seq<Step>, t: State, a: Vote)
    requires Reaches(Init, steps, t) && a in t.acted
    ensures t.held.Some? && a.term <= t.held.value.term
    ensures a.term == t.held.value.term ==> a.node <= t.held.value.node
    ensures a.term == t.held.value.term && a.node == t.held.value.node && a.committed ==> t.held.value.committed
  {
    EveryRunKeepsInv(Init, steps, t);
  }

  /** The next power cut, wherever it falls, leaves a vote not behind the held one. */
  ghost predicate PowerCutsKeep(t: State) {
    forall n :: Enabled(t, Crash(n)) ==> NotBehind(t.held, Do(t, Crash(n)).held)
  }

  /** The condition is exact: a process crash meets it if and only if every power cut after the reopen
      leaves the vote that was read back. */
  lemma ProcessCrashExact(steps: seq<Step>, s: State, n: nat)
    requires Reaches(Init, steps, s) && Enabled(s, ProcessCrash(n))
    ensures SyncedVote(s, n) <==> PowerCutsKeep(Do(s, ProcessCrash(n)))
  {
    EveryRunKeepsInv(Init, steps, s);
    var t := Do(s, ProcessCrash(n));
    if SyncedVote(s, n) {
      StepKeepsInv(s, ProcessCrash(n));
      forall m | Enabled(t, Crash(m)) ensures NotBehind(t.held, Do(t, Crash(m)).held) {
        LaterIsNotBehind(t, t.synced, m);
      }
    } else {
      assert Enabled(t, Crash(s.synced));
      assert Latest(t.wal, s.synced) == Latest(s.wal, s.synced);
    }
  }

  /** A vote written and never synced, read back and acted on, is gone after a power cut, and the member
      votes for another node in the same term. */
  lemma TwoVotesInOneTerm(v: Vote, w: Vote)
    requires v.term == w.term
    ensures var s := Do(Init, Save(v));
            && Enabled(s, ProcessCrash(1)) && Enabled(Do(s, ProcessCrash(1)), Act)
            && var t := Do(Do(s, ProcessCrash(1)), Act);
               && Enabled(t, Crash(0)) && Enabled(Do(t, Crash(0)), Save(w))
               && var u := Do(Do(t, Crash(0)), Save(w));
                  && Enabled(u, Sync(1)) && Enabled(Do(u, Sync(1)), Saved)
                  && Enabled(Do(Do(u, Sync(1)), Saved), Act)
                  && Do(Do(Do(u, Sync(1)), Saved), Act).acted == [v, w]
  {
    var s := Do(Init, Save(v));
    assert s.wal == [v] && s.wal[..1] == [v];
    var t := Do(Do(s, ProcessCrash(1)), Act);
    assert t.wal[..0] == [] && t.acted == [v];
    var u := Do(Do(t, Crash(0)), Save(w));
    assert u.wal == [w];
  }
}
