/** Waiting for a key's deletion: subscribe to this member's events, read, then
    receive until the deletion is seen. The read may be answered by another
    member (the leader); the events are this member's own. */
module WaitDeletes {

  import opened Keys

  /** Events a subscriber may fall behind by before the oldest are dropped. */
  const CAPACITY := 1024

  datatype Phase = Idle | Subscribed | Blocked(key: Key, readAt: nat) | Done

  /** `log[r - 1]` is what revision `r` deletes, on every member; this member has applied up to `pos`.
      `sent` are the revisions sent to this subscription, `buffer` those of them not received yet;
      `from` is where it subscribed and `skipped` the revisions that came in snapshots since. */
  datatype State = State(
    log: seq<set<Key>>, pos: nat, phase: Phase, buffer: seq<nat>, lagged: bool,
    sent: set<nat>, from: nat, skipped: set<nat>)

  datatype Step =
    | Commit(deleted: set<Key>)
    | Apply
    | Install(to: nat)
    | Subscribe
    | ReadLive(key: Key, at: nat)
    | ReadEmpty
    | Receive
    | ReceiveLagged

  predicate Enabled(s: State, step: Step) {
    match step
    case Commit(_) => true
    case Apply => s.pos < |s.log|
    case Install(to) => s.pos < to <= |s.log|
    case Subscribe => s.phase.Idle?
    case ReadLive(_, at) => s.phase.Subscribed? && at <= |s.log|
    case ReadEmpty => s.phase.Subscribed?
    case Receive => s.phase.Blocked? && !s.lagged && s.buffer != [] && 0 < s.buffer[0] <= |s.log|
    case ReceiveLagged => s.phase.Blocked? && s.lagged
  }

  /** Revision `r` deletes the awaited key after the read. */
  predicate Wakes(s: State, r: nat) {
    s.phase.Blocked? && s.phase.readAt < r <= |s.log| && s.phase.key in s.log[r - 1]
  }

  predicate Listening(s: State) { s.phase.Subscribed? || s.phase.Blocked? }

  /** The revisions after `lo` up to `hi`. */
  function After(lo: nat, hi: nat): (rs: set<nat>)
    ensures forall r: nat :: r in rs <==> lo < r <= hi
  {
    if hi <= lo then {} else After(lo, hi - 1) + {hi}
  }

  function Do(s: State, step: Step): State
    requires Enabled(s, step)
  {
    match step
    case Commit(deleted) => s.(log := s.log + [deleted])
    case Apply =>
      var r := s.pos + 1;
      if |s.buffer| < CAPACITY then s.(pos := r, buffer := s.buffer + [r], sent := s.sent + {r})
      else s.(pos := r, buffer := s.buffer[1..] + [r], sent := s.sent + {r}, lagged := true)
    case Install(to) => s.(pos := to, skipped := s.skipped + After(s.pos, to))
    case Subscribe => s.(phase := Subscribed, buffer := [], lagged := false, sent := {}, from := s.pos, skipped := {})
    case ReadLive(key, at) => s.(phase := Blocked(key, at))
    case ReadEmpty => s.(phase := Done)
    case Receive =>
      var rest := s.(buffer := s.buffer[1..]);
      if Wakes(s, s.buffer[0]) then rest.(phase := Idle) else rest
    case ReceiveLagged => s.(phase := Idle)
  }

  ghost predicate Reaches(s: State, steps: seq<Step>, t: State)
    decreases |steps|
  {
    if steps == [] then s == t else Enabled(s, steps[0]) && Reaches(Do(s, steps[0]), steps[1..], t)
  }

  const Init := State([], 0, Idle, [], false, {}, 0, {})

  /** Everything sent is in the buffer, or was received and did not end the wait; what was applied since
      subscribing was sent, unless a snapshot brought it. */
  ghost predicate Inv(s: State) {
    && s.pos <= |s.log|
    && (forall r <- s.buffer :: r in s.sent)
    && (forall r <- s.sent :: r <= s.pos) && (forall r <- s.skipped :: r <= s.pos)
    && (Listening(s) && !s.lagged ==> forall r <- s.sent :: r in s.buffer || (s.phase.Blocked? && !Wakes(s, r)))
    && (Listening(s) ==> s.from <= s.pos && forall r: nat :: r in s.sent <==> Sent(s, r))
  }

  /** Revision `r` was applied from the log since subscribing. */
  predicate Sent(s: State, r: nat) { s.from < r <= s.pos && r !in s.skipped }

  /** Revision `r` was here before the subscription or came in a snapshot. */
  predicate Unsent(s: State, r: nat) { 0 < r <= s.pos && (r <= s.from || r in s.skipped) }

  lemma ApplyKeepsInv(s: State)
    requires Inv(s) && Enabled(s, Apply)
    ensures Inv(Do(s, Apply))
  {
    var t, r := Do(s, Apply), s.pos + 1;
    forall x <- t.buffer ensures x in t.sent {
      if x != r { assert x in s.buffer; }
    }
    if Listening(t) && !t.lagged {
      forall x <- t.sent ensures x in t.buffer || (t.phase.Blocked? && !Wakes(t, x)) {
        if x == r { assert t.buffer[|s.buffer|] == r; } else { assert x in s.sent; }
      }
    }
  }

  lemma StepKeepsInv(s: State, step: Step)
    requires Inv(s) && Enabled(s, step)
    ensures Inv(Do(s, step))
  {
    match step
    case Apply => ApplyKeepsInv(s);
    case Receive =>
      var t := Do(s, step);
      assert s.buffer == [s.buffer[0]] + s.buffer[1..];
    case _ =>
  }

  lemma {:induction false} EveryRunKeepsInv(s: State, steps: seq<Step>, t: State)
    requires Inv(s) && Reaches(s, steps, t)
    ensures Inv(t)
    decreases |steps|
  {
    if steps != [] {
      StepKeepsInv(s, steps[0]);
      EveryRunKeepsInv(Do(s, steps[0]), steps[1..], t);
    }
  }

  /** The awaited key was deleted in what this member has applied since the read. */
  ghost predicate Deleted(s: State) { exists r :: 0 < r <= s.pos && Wakes(s, r) }

  /** Something not yet received will end the wait: the deletion, or the notice of having fallen behind. */
  ghost predicate WakeupPending(s: State) { s.lagged || exists r <- s.buffer :: Wakes(s, r) }

  /** In every run a blocked waiter has a wakeup pending exactly when it fell behind or a deletion of its
      key after the read was sent to it. */
  lemma PendingExactly(steps: seq<Step>, t: State)
    requires Reaches(Init, steps, t) && t.phase.Blocked?
    ensures WakeupPending(t) <==> t.lagged || exists r <- t.sent :: Wakes(t, r)
  {
    EveryRunKeepsInv(Init, steps, t);
  }

  /** A revision applied here was not sent exactly when it came before the subscription or in a snapshot. */
  lemma UnsentExactly(steps: seq<Step>, t: State, r: nat)
    requires Reaches(Init, steps, t) && Listening(t) && 0 < r <= t.pos
    ensures r !in t.sent <==> Unsent(t, r)
  {
    EveryRunKeepsInv(Init, steps, t);
  }

  /** So no wakeup is lost, if the subscription started no later than the read and no snapshot was installed
      during the wait: whenever the key is gone from what this member applied, a wakeup is pending. */
  lemma NoLostWakeup(steps: seq<Step>, t: State)
    requires Reaches(Init, steps, t) && t.phase.Blocked?
    requires t.from <= t.phase.readAt && t.skipped == {}
    ensures Deleted(t) ==> WakeupPending(t)
  {
    PendingExactly(steps, t);
    if Deleted(t) {
      var r :| 0 < r <= t.pos && Wakes(t, r);
      UnsentExactly(steps, t, r);
    }
  }

  /** Receiving one after the other. */
  function Receives(n: nat): seq<Step> { seq(n, _ => Receive) }

  /** Receiving an event that does not wake leaves the one that will. */
  lemma StillPending(s: State)
    requires Inv(s) && s.phase.Blocked? && !s.lagged && WakeupPending(s)
    ensures s.buffer != [] && Enabled(s, Receive)
    ensures var t := Do(s, Receive);
            if Wakes(s, s.buffer[0]) then t.phase.Idle?
            else Inv(t) && t.phase == s.phase && !t.lagged && WakeupPending(t) && |t.buffer| == |s.buffer| - 1
  {
    var r :| r in s.buffer && Wakes(s, r);
    assert s.buffer[0] in s.sent;
    StepKeepsInv(s, Receive);
    var t := Do(s, Receive);
    if !Wakes(s, s.buffer[0]) {
      assert s.buffer == [s.buffer[0]] + s.buffer[1..];
      assert r in t.buffer && Wakes(t, r);
    }
  }

  lemma ReceiveFirst(s: State, n: nat, t: State)
    requires Enabled(s, Receive) && Reaches(Do(s, Receive), Receives(n), t)
    ensures Reaches(s, Receives(n + 1), t)
  {
    assert Receives(n + 1)[1..] == Receives(n);
  }

  /** A pending wakeup ends the wait: the waiter that keeps receiving reads again after at most as many
      events as are waiting, and one that fell behind at once. */
  lemma {:induction false} PendingEndsWait(s: State) returns (steps: seq<Step>, t: State)
    requires Inv(s) && s.phase.Blocked? && WakeupPending(s)
    ensures Reaches(s, steps, t) && t.phase.Idle?
    ensures if s.lagged then steps == [ReceiveLagged] else |steps| <= |s.buffer| && steps == Receives(|steps|)
    decreases |s.buffer|
  {
    if s.lagged {
      steps, t := [ReceiveLagged], Do(s, ReceiveLagged);
      assert steps[1..] == [];
    } else {
      StillPending(s);
      var n := 0;
      t := Do(s, Receive);
      if !Wakes(s, s.buffer[0]) {
        var rest;
        rest, t := PendingEndsWait(Do(s, Receive));
        n := |rest|;
      }
      ReceiveFirst(s, n, t);
      steps := Receives(n + 1);
    }
  }

  /** A waiter whose key is gone here and which nothing will wake. */
  ghost predicate Lost(s: State) { s.phase.Blocked? && Deleted(s) && !WakeupPending(s) }

  /** A wakeup is lost exactly when the key was deleted before the subscription or in a snapshot, no revision
      applied from the log since subscribing deletes it, and the waiter did not fall behind. */
  lemma LostExactly(steps: seq<Step>, t: State)
    requires Reaches(Init, steps, t) && t.phase.Blocked?
    ensures Lost(t) <==>
            && !t.lagged
            && (exists r: nat :: Unsent(t, r) && Wakes(t, r))
            && forall r: nat :: Sent(t, r) ==> !Wakes(t, r)
  {
    PendingExactly(steps, t);
    EveryRunKeepsInv(Init, steps, t);
    if Lost(t) {
      var r: nat :| 0 < r <= t.pos && Wakes(t, r);
      UnsentExactly(steps, t, r);
    }
  }

  /** This member had already applied the deletion when it subscribed; the leader that answered the read
      had not. */
  lemma AheadOfTheReadLoses(key: Key)
    ensures var ahead := Do(Do(Do(Do(Init, Commit({})), Commit({key})), Apply), Apply);
            Lost(Do(Do(ahead, Subscribe), ReadLive(key, 1)))
  {
    var ahead := Do(Do(Do(Do(Init, Commit({})), Commit({key})), Apply), Apply);
    assert ahead.log == [{}, {key}] && ahead.pos == 2;
    assert Wakes(Do(Do(ahead, Subscribe), ReadLive(key, 1)), 2);
  }

  /** The deletion arrives in a snapshot. */
  lemma InstalledDeletionLoses(key: Key)
    ensures var blocked := Do(Do(Do(Do(Init, Commit({})), Apply), Subscribe), ReadLive(key, 1));
            Lost(Do(Do(blocked, Commit({key})), Install(2)))
  {
    var blocked := Do(Do(Do(Do(Init, Commit({})), Apply), Subscribe), ReadLive(key, 1));
    assert blocked.log == [{}];
    var t := Do(Do(blocked, Commit({key})), Install(2));
    assert t.log == [{}, {key}] && Wakes(t, 2);
  }
}
