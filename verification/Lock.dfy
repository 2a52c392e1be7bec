/** The lock and election services: a session's key under a name's prefix, owned
    by the key created first. Each request to the store is one atomic step; the
    steps of any number of calls, unlocks and lease expiries interleave freely. */
module Lock {

  import opened Keys
  import RangeOptions

  // ---------- Session keys ----------

  /** Lower-case hexadecimal, no leading zeros. */
  function HexDigit(d: nat): Byte
    requires d < 16
  {
    if d < 10 then 48 + d else 87 + d
  }

  function Hex(n: nat): Key { if n < 16 then [HexDigit(n)] else Hex(n / 16) + [HexDigit(n % 16)] }

  /** `pfx` and the lease id, signed. */
  function LeaseKey(pfx: Key, lease: int): Key { pfx + if lease < 0 then [45] + Hex(-lease) else Hex(lease) }

  /** The value of a digit `0` to `9` or `a` to `f`. */
  function DigitValue(c: Byte): int { if 48 <= c <= 57 then c - 48 else if 97 <= c <= 102 then c - 87 else -1 }

  /** Read as hexadecimal. */
  function HexValue(k: Key): int { if k == [] then 0 else 16 * HexValue(k[..|k| - 1]) + DigitValue(k[|k| - 1]) }

  /** The digits are those of the number, and none of them is a leading zero. */
  lemma {:induction false} HexReadsBack(n: nat)
    ensures HexValue(Hex(n)) == n && (forall c <- Hex(n) :: DigitValue(c) >= 0) && (n > 0 ==> Hex(n)[0] != 48)
  {
    HexNonEmpty(n);
    if n >= 16 {
      HexReadsBack(n / 16);
      HexNonEmpty(n / 16);
      assert Hex(n)[..|Hex(n)| - 1] == Hex(n / 16);
    } else {
      assert Hex(n)[..0] == [];
    }
  }

  lemma {:induction false} HexInjective(m: nat, n: nat)
    requires Hex(m) == Hex(n)
    ensures m == n
  {
    var a, b := Hex(m), Hex(n);
    HexNonEmpty(m / 16);
    HexNonEmpty(n / 16);
    assert a[|a| - 1] == b[|b| - 1] && a[..|a| - 1] == b[..|b| - 1];
    if m >= 16 && n >= 16 {
      HexInjective(m / 16, n / 16);
    }
  }

  lemma HexNonEmpty(n: nat)
    ensures |Hex(n)| > 0 && Hex(n)[0] != 45
  {
  }

  /** Different sessions have different keys under every prefix. */
  lemma LeaseKeyInjective(pfx: Key, a: int, b: int)
    requires LeaseKey(pfx, a) == LeaseKey(pfx, b)
    ensures a == b
  {
    var x, y := LeaseKey(pfx, a)[|pfx|..], LeaseKey(pfx, b)[|pfx|..];
    assert x == if a < 0 then [45] + Hex(-a) else Hex(a);
    assert y == if b < 0 then [45] + Hex(-b) else Hex(b);
    if a < 0 && b < 0 {
      assert x[1..] == Hex(-a) && y[1..] == Hex(-b);
      HexInjective(-a, -b);
    } else if a >= 0 && b >= 0 {
      HexInjective(a, b);
    } else {
      HexNonEmpty(if a < 0 then b else a);
    }
  }

  // ---------- The system ----------

  /** Where a call is: `Waiting` and `Waited` remember the create revision it took for its own;
      `Holding` the create revision of the key it returned Ok with. */
  datatype Phase = Calling | Waiting(rev: nat) | Waited(rev: nat) | Holding(rev: nat) | Failed

  datatype Call = Call(key: Key, phase: Phase)

  /** The keys under one prefix with their create revisions, and the calls so far. */
  datatype State = State(rev: nat, live: map<Key, nat>, calls: map<nat, Call>)

  datatype Step =
    | Start(c: nat, key: Key)          // a Lock or Campaign with the session of `key`
    | TryAcquire(c: nat)               // Lock's txn
    | Campaign(c: nat)                 // Campaign's txn
    | WaitDone(c: nat)                 // wait_deletes returned
    | ReadBack(c: nat)                 // Lock's last read, and its answer
    | Elected(c: nat)                  // Campaign's answer
    | Delete(keys: set<Key>)           // Unlock, Resign, an abandoned call, a lease's expiry
    | Foreign(keys: set<Key>)          // someone else creates keys under the prefix, in one txn
    | Elsewhere                        // a write outside the prefix

  /** Nothing under the prefix is older than `rev`. */
  predicate Oldest(live: map<Key, nat>, rev: nat) { forall k <- live :: rev <= live[k] }

  predicate Enabled(s: State, step: Step) {
    match step
    case Start(c, key) => c !in s.calls
    case TryAcquire(c) => c in s.calls && s.calls[c].phase.Calling?
    case Campaign(c) => c in s.calls && s.calls[c].phase.Calling?
    case WaitDone(c) => c in s.calls && s.calls[c].phase.Waiting? && Oldest(s.live, s.calls[c].phase.rev)
    case ReadBack(c) => c in s.calls && s.calls[c].phase.Waited?
    case Elected(c) => c in s.calls && s.calls[c].phase.Waited?
    case Delete(keys) => true
    case Foreign(keys) => keys !! s.live.Keys
    case Elsewhere => true
  }

  /** The session's key, created unless it is there already. */
  function Acquire(s: State, key: Key): State {
    if key in s.live then s else s.(rev := s.rev + 1, live := s.live[key := s.rev + 1])
  }

  function At(s: State, c: nat, phase: Phase): State
    requires c in s.calls
  {
    s.(calls := s.calls[c := s.calls[c].(phase := phase)])
  }

  function Do(s: State, step: Step): State
    requires Enabled(s, step)
  {
    match step
    case Start(c, key) => s.(calls := s.calls[c := Call(key, Calling)])
    case TryAcquire(c) =>
      var t := Acquire(s, s.calls[c].key);
      var mine := t.live[s.calls[c].key];
      At(t, c, if Oldest(t.live, mine) then Holding(mine) else Waiting(mine))
    case Campaign(c) =>
      var t := Acquire(s, s.calls[c].key);
      At(t, c, Waiting(t.live[s.calls[c].key]))
    case WaitDone(c) => At(s, c, Waited(s.calls[c].phase.rev))
    case ReadBack(c) =>
      var key := s.calls[c].key;
      At(s, c, if key in s.live then Holding(s.live[key]) else Failed)
    case Elected(c) => At(s, c, Holding(s.calls[c].phase.rev))
    case Delete(keys) => s.(rev := s.rev + 1, live := s.live - keys)
    case Foreign(keys) => s.(rev := s.rev + 1, live := s.live + map k | k in keys :: s.rev + 1)
    case Elsewhere => s.(rev := s.rev + 1)
  }

  // ---------- How the code decides ----------

  /** `kvs` are the store's records of the keys under the prefix. */
  ghost predicate Lists(kvs: seq<RangeOptions.Record>, live: map<Key, nat>) {
    && (forall kv <- kvs :: kv.key in live && kv.create == live[kv.key])
    && (forall k <- live :: exists kv <- kvs :: kv.key == k)
  }

  /** Lock's check after its txn: nothing is there, or the first created has the caller's revision. */
  method OwnsAlready(kvs: seq<RangeOptions.Record>, ghost live: map<Key, nat>, mine: nat) returns (owns: bool)
    requires Lists(kvs, live) && exists k <- live :: live[k] == mine
    ensures owns <==> Oldest(live, mine)
  {
    var r := RangeOptions.ReadFirstCreate(RangeOptions.Result(kvs, false, |kvs|));
    owns := r.kvs == [] || r.kvs[0].create == mine;
  }

  /** The wait's check: nothing under the prefix was created at or below the revision before `rev`. */
  method WaitIsOver(kvs: seq<RangeOptions.Record>, ghost live: map<Key, nat>, rev: nat) returns (over: bool)
    requires Lists(kvs, live) && forall k <- live :: 0 < live[k]
    ensures over <==> Oldest(live, rev)
  {
    if rev < 2 { return true; }
    var r := RangeOptions.ReadLastCreate(RangeOptions.Result(kvs, false, |kvs|), rev - 1);
    over := r.kvs == [];
  }

  ghost predicate Reaches(s: State, steps: seq<Step>, t: State)
    decreases |steps|
  {
    if steps == [] then s == t else Enabled(s, steps[0]) && Reaches(Do(s, steps[0]), steps[1..], t)
  }

  const Init := State(0, map[], map[])

  /** A call returned Ok and the key it returned with is still there, not created again. */
  predicate Holds(s: State, c: nat) {
    && c in s.calls && s.calls[c].phase.Holding?
    && s.calls[c].key in s.live && s.live[s.calls[c].key] == s.calls[c].phase.rev
  }

  /** At most one key is both live and returned Ok. */
  ghost predicate Exclusive(s: State) {
    forall c, d :: Holds(s, c) && Holds(s, d) ==> s.calls[c].key == s.calls[d].key
  }

  // ---------- Mutual exclusion ----------

  /** No revision creates two keys under the prefix, and the key a Lock reads back is the oldest. */
  predicate Clean(s: State, step: Step)
    requires Enabled(s, step)
  {
    match step
    case Foreign(keys) => |keys| <= 1
    case ReadBack(c) => s.calls[c].key in s.live ==> Oldest(s.live, s.live[s.calls[c].key])
    case _ => true
  }

  ghost predicate ReachesCleanly(s: State, steps: seq<Step>, t: State)
    decreases |steps|
  {
    if steps == [] then s == t
    else Enabled(s, steps[0]) && Clean(s, steps[0]) && ReachesCleanly(Do(s, steps[0]), steps[1..], t)
  }

  ghost predicate DistinctAt(live: map<Key, nat>, j: Key, k: Key) {
    j in live && k in live && live[j] == live[k] ==> j == k
  }

  ghost predicate CallInv(s: State, c: nat) {
    c in s.calls ==>
      match s.calls[c].phase
      case Calling => true
      case Waiting(r) => r <= s.rev
      case Waited(r) => r <= s.rev && Oldest(s.live, r)
      case Holding(r) => r <= s.rev && (Holds(s, c) ==> Oldest(s.live, r))
      case Failed => true
  }

  ghost predicate Inv(s: State) {
    && (forall k <- s.live :: 0 < s.live[k] <= s.rev)
    && (forall j, k :: DistinctAt(s.live, j, k))
    && forall c :: CallInv(s, c)
  }

  lemma InvExclusive(s: State)
    requires Inv(s)
    ensures Exclusive(s)
  {
    forall c, d | Holds(s, c) && Holds(s, d) ensures s.calls[c].key == s.calls[d].key {
      assert CallInv(s, c) && CallInv(s, d);
      assert DistinctAt(s.live, s.calls[c].key, s.calls[d].key);
    }
  }

  lemma AcquireKeepsInv(s: State, key: Key)
    requires Inv(s)
    ensures Inv(Acquire(s, key))
  {
    var t := Acquire(s, key);
    forall j, k ensures DistinctAt(t.live, j, k) { assert DistinctAt(s.live, j, k); }
    forall c ensures CallInv(t, c) { assert CallInv(s, c); }
  }

  /** Moving one call on changes nothing for the others. */
  lemma AtKeepsInv(s: State, c: nat, phase: Phase)
    requires Inv(s) && c in s.calls && CallInv(At(s, c, phase), c)
    ensures Inv(At(s, c, phase))
  {
    var t := At(s, c, phase);
    forall d ensures CallInv(t, d) {
      if d != c { assert CallInv(s, d); }
    }
  }

  lemma StoreStepKeepsInv(s: State, step: Step)
    requires Inv(s) && Enabled(s, step) && Clean(s, step) && (step.Delete? || step.Foreign? || step.Elsewhere?)
    ensures Inv(Do(s, step))
  {
    var t := Do(s, step);
    if step.Foreign? {
      forall j, k | j in step.keys && k in step.keys ensures j == k {
        if j != k { SingletonHasOne(step.keys, j, k); }
      }
    }
    forall j, k ensures DistinctAt(t.live, j, k) { assert DistinctAt(s.live, j, k); }
    forall c ensures CallInv(t, c) { assert CallInv(s, c); }
  }

  lemma SingletonHasOne(keys: set<Key>, j: Key, k: Key)
    requires j in keys && k in keys && j != k
    ensures |keys| > 1
  {
    assert |keys - {j}| > 0 by { assert k in keys - {j}; }
  }

  lemma StepKeepsInv(s: State, step: Step)
    requires Inv(s) && Enabled(s, step) && Clean(s, step)
    ensures Inv(Do(s, step))
  {
    match step
    case Start(c, key) =>
      forall d ensures CallInv(Do(s, step), d) { assert CallInv(s, d); }
    case TryAcquire(c) =>
      AcquireKeepsInv(s, s.calls[c].key);
      var t := Acquire(s, s.calls[c].key);
      var mine := t.live[s.calls[c].key];
      AtKeepsInv(t, c, if Oldest(t.live, mine) then Holding(mine) else Waiting(mine));
    case Campaign(c) =>
      AcquireKeepsInv(s, s.calls[c].key);
      var t := Acquire(s, s.calls[c].key);
      AtKeepsInv(t, c, Waiting(t.live[s.calls[c].key]));
    case WaitDone(c) =>
      assert CallInv(s, c);
      AtKeepsInv(s, c, Waited(s.calls[c].phase.rev));
    case ReadBack(c) =>
      assert CallInv(s, c);
      AtKeepsInv(s, c, if s.calls[c].key in s.live then Holding(s.live[s.calls[c].key]) else Failed);
    case Elected(c) =>
      assert CallInv(s, c);
      AtKeepsInv(s, c, Holding(s.calls[c].phase.rev));
    case _ => StoreStepKeepsInv(s, step);
  }

  lemma {:induction false} CleanRunsKeepInv(s: State, steps: seq<Step>, t: State)
    requires Inv(s) && ReachesCleanly(s, steps, t)
    ensures Inv(t)
    decreases |steps|
  {
    if steps != [] {
      StepKeepsInv(s, steps[0]);
      CleanRunsKeepInv(Do(s, steps[0]), steps[1..], t);
    }
  }

  /** One holder at every revision of a run in which every key read back is the oldest: the condition that
      `ReadBackExact` shows exact, step by step. */
  lemma OldestReadBackExclusive(steps: seq<Step>, t: State)
    requires ReachesCleanly(Init, steps, t)
    ensures Exclusive(t)
  {
    CleanRunsKeepInv(Init, steps, t);
    InvExclusive(t);
  }

  /** No revision creates two keys under the prefix, and a key read back is the one the call waited with. */
  predicate Unmixed(s: State, step: Step)
    requires Enabled(s, step)
  {
    match step
    case Foreign(keys) => |keys| <= 1
    case ReadBack(c) => s.calls[c].key in s.live ==> s.live[s.calls[c].key] == s.calls[c].phase.rev
    case _ => true
  }

  ghost predicate ReachesUnmixed(s: State, steps: seq<Step>, t: State)
    decreases |steps|
  {
    if steps == [] then s == t
    else Enabled(s, steps[0]) && Unmixed(s, steps[0]) && ReachesUnmixed(Do(s, steps[0]), steps[1..], t)
  }

  /** The wait did its work: nothing older than the key it waited with is left. */
  lemma WaitedIsOldest(s: State, step: Step)
    requires Inv(s) && Enabled(s, step) && Unmixed(s, step)
    ensures Clean(s, step)
  {
    if step.ReadBack? { assert CallInv(s, step.c); }
  }

  lemma {:induction false} UnmixedRunsAreClean(s: State, steps: seq<Step>, t: State)
    requires Inv(s) && ReachesUnmixed(s, steps, t)
    ensures ReachesCleanly(s, steps, t)
    decreases |steps|
  {
    if steps != [] {
      WaitedIsOldest(s, steps[0]);
      StepKeepsInv(s, steps[0]);
      UnmixedRunsAreClean(Do(s, steps[0]), steps[1..], t);
    }
  }

  /** For any interleaving of Lock, Campaign, Unlock and lease expiry in which no revision creates two keys
      and no Lock reads back a key other than the one it waited with: one holder at every revision. */
  lemma MutualExclusion(steps: seq<Step>, t: State)
    requires ReachesUnmixed(Init, steps, t)
    ensures Exclusive(t)
  {
    UnmixedRunsAreClean(Init, steps, t);
    OldestReadBackExclusive(steps, t);
  }

  // ---------- Keys not made again ----------

  /** Call `c` waits for its turn with `key`. */
  predicate WaitsWith(s: State, c: nat, key: Key) {
    c in s.calls && s.calls[c].key == key && (s.calls[c].phase.Waiting? || s.calls[c].phase.Waited?)
  }

  ghost predicate Awaited(s: State, key: Key) { exists c :: WaitsWith(s, c, key) }

  /** The keys a step creates under the prefix. */
  function Creates(s: State, step: Step): set<Key>
    requires Enabled(s, step)
  {
    match step
    case TryAcquire(c) => {s.calls[c].key} - s.live.Keys
    case Campaign(c) => {s.calls[c].key} - s.live.Keys
    case Foreign(keys) => keys
    case _ => {}
  }

  lemma CreatesExactly(s: State, step: Step)
    requires Enabled(s, step)
    ensures Creates(s, step) == Do(s, step).live.Keys - s.live.Keys
  {
  }

  /** A step creates at most one key, and none that a call is waiting with. */
  ghost predicate Orderly(s: State, step: Step)
    requires Enabled(s, step)
  {
    |Creates(s, step)| <= 1 && forall k <- Creates(s, step) :: !Awaited(s, k)
  }

  ghost predicate ReachesOrderly(s: State, steps: seq<Step>, t: State)
    decreases |steps|
  {
    if steps == [] then s == t
    else Enabled(s, steps[0]) && Orderly(s, steps[0]) && ReachesOrderly(Do(s, steps[0]), steps[1..], t)
  }

  /** A waiting call's key, if it is there, is the one the call waits with. */
  ghost predicate OwnAt(s: State, c: nat) {
    c in s.calls && (s.calls[c].phase.Waiting? || s.calls[c].phase.Waited?) && s.calls[c].key in s.live ==>
      s.live[s.calls[c].key] == s.calls[c].phase.rev
  }

  ghost predicate Own(s: State) { forall c :: OwnAt(s, c) }

  lemma OrderlyKeepsOwn(s: State, step: Step)
    requires Own(s) && Enabled(s, step) && Orderly(s, step)
    ensures Own(Do(s, step)) && Unmixed(s, step)
  {
    var t := Do(s, step);
    forall c ensures OwnAt(t, c) {
      assert OwnAt(s, c);
      if c in s.calls && s.calls[c].key in Creates(s, step) { assert !WaitsWith(s, c, s.calls[c].key); }
    }
    if step.ReadBack? { assert OwnAt(s, step.c); }
  }

  lemma {:induction false} OrderlyRunsAreUnmixed(s: State, steps: seq<Step>, t: State)
    requires Own(s) && ReachesOrderly(s, steps, t)
    ensures ReachesUnmixed(s, steps, t)
    decreases |steps|
  {
    if steps != [] {
      OrderlyKeepsOwn(s, steps[0]);
      OrderlyRunsAreUnmixed(Do(s, steps[0]), steps[1..], t);
    }
  }

  /** In particular if no key is made again while the session it belongs to waits, whatever else is
      deleted or made. */
  lemma NotMadeAgainExclusive(steps: seq<Step>, t: State)
    requires ReachesOrderly(Init, steps, t)
    ensures Exclusive(t)
  {
    OrderlyRunsAreUnmixed(Init, steps, t);
    MutualExclusion(steps, t);
  }

  /** Campaign reads nothing back: elections need no condition on re-created keys. */
  predicate ElectionStep(step: Step) { !step.ReadBack? && (step.Foreign? ==> |step.keys| <= 1) }

  lemma {:induction false} ElectionsExclusive(s: State, steps: seq<Step>, t: State)
    requires Inv(s) && Reaches(s, steps, t) && forall i :: 0 <= i < |steps| ==> ElectionStep(steps[i])
    ensures Inv(t) && Exclusive(t)
    decreases |steps|
  {
    if steps != [] {
      assert ElectionStep(steps[0]);
      StepKeepsInv(s, steps[0]);
      forall i | 0 <= i < |steps[1..]| ensures ElectionStep(steps[1..][i]) { assert ElectionStep(steps[i + 1]); }
      ElectionsExclusive(Do(s, steps[0]), steps[1..], t);
    } else {
      InvExclusive(t);
    }
  }

  // ---------- When it fails ----------

  lemma {:induction false} OldestExists(live: map<Key, nat>) returns (k: Key)
    requires live != map[]
    ensures k in live && Oldest(live, live[k])
    decreases |live|
  {
    k :| k in live;
    var rest := live - {k};
    if rest != map[] {
      assert |rest| < |live| by { assert live.Keys == rest.Keys + {k}; }
      var j := OldestExists(rest);
      if live[j] < live[k] { k := j; }
    }
  }

  /** The read-back keeps one holder, now and from here on, if and only if the key it finds is the oldest:
      if it is not, the session of the oldest key may call Lock and holds too. */
  lemma ReadBackExact(s: State, c: nat, other: nat)
    requires Inv(s) && Enabled(s, ReadBack(c)) && s.calls[c].key in s.live && other !in s.calls
    ensures var t := Do(s, ReadBack(c));
            var oldest := Oldest(s.live, s.live[s.calls[c].key]);
            && (oldest ==> Inv(t))
            && (!oldest ==> exists key: Key, u: State ::
                  Reaches(t, [Start(other, key), TryAcquire(other)], u) && !Exclusive(u))
  {
    var t, mine := Do(s, ReadBack(c)), s.live[s.calls[c].key];
    assert CallInv(s, c);
    if Oldest(s.live, mine) {
      AtKeepsInv(s, c, Holding(mine));
    } else {
      var key := OldestExists(s.live);
      var asked := Do(t, Start(other, key));
      var u := Do(asked, TryAcquire(other));
      assert [Start(other, key), TryAcquire(other)][1..] == [TryAcquire(other)];
      assert [TryAcquire(other)][1..] == [];
      assert Reaches(asked, [TryAcquire(other)], u);
      assert Holds(u, c) && Holds(u, other);
      assert Reaches(t, [Start(other, key), TryAcquire(other)], u) && !Exclusive(u);
    }
  }

  lemma {:induction false} OneMore(s: State, steps: seq<Step>, t: State, step: Step)
    requires Reaches(s, steps, t) && Enabled(t, step)
    ensures Reaches(s, steps + [step], Do(t, step))
    decreases |steps|
  {
    if steps == [] {
      assert ([] + [step])[1..] == [];
    } else {
      OneMore(Do(s, steps[0]), steps[1..], t, step);
      assert (steps + [step])[1..] == steps[1..] + [step];
    }
  }

  /** A Lock call up to its txn. */
  lemma OneMoreCall(s: State, steps: seq<Step>, t: State, c: nat, key: Key) returns (steps': seq<Step>)
    requires Reaches(s, steps, t) && c !in t.calls
    ensures Reaches(s, steps', Do(Do(t, Start(c, key)), TryAcquire(c)))
  {
    OneMore(s, steps, t, Start(c, key));
    OneMore(s, steps + [Start(c, key)], Do(t, Start(c, key)), TryAcquire(c));
    steps' := steps + [Start(c, key)] + [TryAcquire(c)];
  }

  /** A Lock call from its wait to its answer. */
  lemma OneMoreAnswer(s: State, steps: seq<Step>, t: State, c: nat) returns (steps': seq<Step>)
    requires Reaches(s, steps, t) && Enabled(t, WaitDone(c))
    ensures Reaches(s, steps', Do(Do(t, WaitDone(c)), ReadBack(c)))
  {
    OneMore(s, steps, t, WaitDone(c));
    OneMore(s, steps + [WaitDone(c)], Do(t, WaitDone(c)), ReadBack(c));
    steps' := steps + [WaitDone(c)] + [ReadBack(c)];
  }

  /** A Lock call made while an older key is live has to wait. */
  lemma NewcomerWaits(t: State, c: nat, key: Key, older: Key)
    requires c !in t.calls && key !in t.live && older in t.live && t.live[older] <= t.rev
    ensures Do(Do(t, Start(c, key)), TryAcquire(c))
         == State(t.rev + 1, t.live[key := t.rev + 1], t.calls[c := Call(key, Waiting(t.rev + 1))])
  {
    var u := Acquire(Do(t, Start(c, key)), key);
    assert !Oldest(u.live, t.rev + 1) by { assert older in u.live && u.live[older] <= t.rev; }
  }

  /** A holds, B waits, and B's key is deleted. */
  lemma Waiter(a: Key, b: Key) returns (steps: seq<Step>, t: State)
    requires a != b
    ensures Reaches(Init, steps, t) && t.rev == 3 && t.live == map[a := 1]
    ensures t.calls == map[1 := Call(a, Holding(1)), 2 := Call(b, Waiting(2))]
  {
    steps := OneMoreCall(Init, [], Init, 1, a);
    t := Do(Do(Init, Start(1, a)), TryAcquire(1));
    steps := OneMoreCall(Init, steps, t, 2, b);
    NewcomerWaits(t, 2, b, a);
    t := Do(Do(t, Start(2, b)), TryAcquire(2));
    OneMore(Init, steps, t, Delete({b}));
    steps, t := steps + [Delete({b})], Do(t, Delete({b}));
  }

  /** C queues up, then B's session locks again and its key is made again behind C's. */
  lemma MadeAgain(a: Key, b: Key, c: Key) returns (steps: seq<Step>, t: State)
    requires a != b && b != c && a != c
    ensures Reaches(Init, steps, t) && t.live == map[a := 1, c := 4, b := 5]
    ensures t.calls == map[1 := Call(a, Holding(1)), 2 := Call(b, Waiting(2)), 3 := Call(c, Waiting(4)), 4 := Call(b, Waiting(5))]
  {
    steps, t := Waiter(a, b);
    steps := OneMoreCall(Init, steps, t, 3, c);
    NewcomerWaits(t, 3, c, a);
    t := Do(Do(t, Start(3, c)), TryAcquire(3));
    steps := OneMoreCall(Init, steps, t, 4, b);
    NewcomerWaits(t, 4, b, a);
    t := Do(Do(t, Start(4, b)), TryAcquire(4));
  }

  /** Then A unlocks: B's first call reads back a key it did not make, and holds beside C. */
  lemma MadeAgainTwoHold(a: Key, b: Key, c: Key) returns (steps: seq<Step>, t: State)
    requires a != b && b != c && a != c
    ensures Reaches(Init, steps, t) && !Exclusive(t)
  {
    steps, t := MadeAgain(a, b, c);
    OneMore(Init, steps, t, Delete({a}));
    steps, t := steps + [Delete({a})], Do(t, Delete({a}));
    assert t.live == map[c := 4, b := 5];
    steps := OneMoreAnswer(Init, steps, t, 2);
    t := Do(Do(t, WaitDone(2)), ReadBack(2));
    steps := OneMoreAnswer(Init, steps, t, 3);
    t := Do(Do(t, WaitDone(3)), ReadBack(3));
    assert Holds(t, 2) && Holds(t, 3);
  }

  /** A txn that makes two keys under the prefix at one revision: once they are the oldest, both
      sessions' Lock calls return at once. */
  lemma MadeTogetherTwoHold(s: State, keys: set<Key>, j: Key, k: Key, c: nat, d: nat) returns (steps: seq<Step>, t: State)
    requires Enabled(s, Foreign(keys)) && j in keys && k in keys && j != k
    requires c !in s.calls && d !in s.calls && c != d
    ensures Reaches(Do(s, Foreign(keys)), steps, t) && !Exclusive(t)
  {
    var made := Do(s, Foreign(keys));
    var older := made.live.Keys - {j, k};
    OneMore(made, [], made, Delete(older));
    steps, t := [] + [Delete(older)], Do(made, Delete(older));
    assert t.live == map[j := s.rev + 1, k := s.rev + 1];
    steps := OneMoreCall(made, steps, t, c, j);
    t := Do(Do(t, Start(c, j)), TryAcquire(c));
    steps := OneMoreCall(made, steps, t, d, k);
    t := Do(Do(t, Start(d, k)), TryAcquire(d));
    assert Holds(t, c) && Holds(t, d);
  }
}
