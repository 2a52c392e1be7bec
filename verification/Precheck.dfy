/** The leader's check before proposing a write: a put that keeps the value or
    lease of a key that is not there. Judged on the state now; the state machine
    judges again when it applies. */
module Precheck {

  import opened Common
  import opened Keys

  datatype Mutation = Put(key: Key, ignores: bool) | DeleteRange(key: Key, end: Key)

  /** A txn over compares of type `C`. */
  datatype Txn<C> = Txn(compares: C, success: seq<Op<C>>, failure: seq<Op<C>>)
  datatype Op<C> = Mutate(m: Mutation) | Range(rev: int) | Nested(txn: Txn<C>)

  datatype Refusal = KeyNotFound | BadRevision

  /** The state a write is applied to: the live keys and the revisions reads may ask for. */
  datatype Store = Store(live: set<Key>, current: int, compacted: int)

  datatype Outcome = Applied(live: set<Key>, produced: bool) | Refused(why: Refusal)

  // ---------- Applying ----------

  function ApplyMutation(live: set<Key>, produced: bool, m: Mutation): Outcome {
    match m
    case Put(key, ignores) =>
      if ignores && key !in live then Refused(KeyNotFound) else Applied(live + {key}, true)
    case DeleteRange(key, end) =>
      var kept := set k | k in live && !InRange(k, key, end);
      Applied(kept, produced || kept != live)
  }

  /** A read at a revision: refused above the current one (the pending one once the txn wrote) and
      below the compacted one. */
  function ApplyRange(s: Store, live: set<Key>, produced: bool, rev: int): Outcome {
    var current := if produced then s.current + 1 else s.current;
    if rev > current || (rev > 0 && rev < s.compacted) then Refused(BadRevision) else Applied(live, produced)
  }

  function Branch<C>(holds: C -> bool, t: Txn<C>): seq<Op<C>> { if holds(t.compares) then t.success else t.failure }

  /** `txn_ops`: in order, nested txns in place. Every compare is judged by `holds`, the state before
      the outermost txn. */
  function ApplyOps<C>(s: Store, holds: C -> bool, ops: seq<Op<C>>, from: Outcome): Outcome
    decreases ops
  {
    if ops == [] || from.Refused? then from
    else
      ApplyOps(s, holds, ops[1..], ApplyOp(s, holds, ops[0], from))
  }

  function ApplyOp<C>(s: Store, holds: C -> bool, op: Op<C>, from: Outcome): Outcome
    requires from.Applied?
    decreases op
  {
    match op
    case Mutate(m) => ApplyMutation(from.live, from.produced, m)
    case Range(rev) => ApplyRange(s, from.live, from.produced, rev)
    case Nested(t) => ApplyTxn(s, holds, t, from)
  }

  function ApplyTxn<C>(s: Store, holds: C -> bool, t: Txn<C>, from: Outcome): Outcome
    decreases t
  {
    if holds(t.compares) then ApplyOps(s, holds, t.success, from) else ApplyOps(s, holds, t.failure, from)
  }

  // ---------- The check ----------

  function ChosenOf<C>(holds: C -> bool, op: Op<C>): seq<Mutation> {
    match op
    case Mutate(m) => [m]
    case Range(_) => []
    case Nested(t) => Chosen(holds, t)
  }

  function ChosenIn<C>(holds: C -> bool, ops: seq<Op<C>>): seq<Mutation> {
    if ops == [] then [] else ChosenOf(holds, ops[0]) + ChosenIn(holds, ops[1..])
  }

  function Chosen<C>(holds: C -> bool, t: Txn<C>): seq<Mutation> {
    if holds(t.compares) then ChosenIn(holds, t.success) else ChosenIn(holds, t.failure)
  }

  /** `chosen_mutations`: the mutations the txn would run now, in order. */
  method ChosenMutations<C>(holds: C -> bool, t: Txn<C>) returns (out: seq<Mutation>)
    ensures out == Chosen(holds, t)
    decreases t
  {
    var ops, i := Branch(holds, t), 0;
    out := [];
    while i < |ops|
      invariant i <= |ops| && out + ChosenIn(holds, ops[i..]) == ChosenIn(holds, ops)
    {
      ghost var before := out;
      match ops[i] {
        case Mutate(m) => out := out + [m];
        case Range(_) =>
        case Nested(n) =>
          var inner := ChosenMutations(holds, n);
          out := out + inner;
      }
      assert ops[i..][0] == ops[i] && ops[i..][1..] == ops[i + 1..];
      Assoc(before, ChosenOf(holds, ops[i]), ChosenIn(holds, ops[i + 1..]));
      i := i + 1;
    }
  }

  /** Some earlier mutation puts `key`. */
  predicate PutBefore(ms: seq<Mutation>, from: nat, i: nat, key: Key) {
    exists k :: from <= k < i && k < |ms| && ms[k].Put? && ms[k].key == key
  }

  /** Mutation `i` keeps what a key that is missing now, and not put earlier, does not have. */
  predicate KeepsMissingAt(live: set<Key>, ms: seq<Mutation>, i: nat) {
    i < |ms| && ms[i].Put? && ms[i].ignores && ms[i].key !in live && !PutBefore(ms, 0, i, ms[i].key)
  }

  ghost predicate KeepsMissing(live: set<Key>, ms: seq<Mutation>) { exists i: nat :: KeepsMissingAt(live, ms, i) }

  /** `keeps_missing_key`. */
  method KeepsMissingKey(live: set<Key>, ms: seq<Mutation>) returns (r: bool)
    ensures r <==> KeepsMissing(live, ms)
  {
    var put, i := {}, 0;
    while i < |ms|
      invariant i <= |ms|
      invariant forall key: Key :: key in put <==> PutBefore(ms, 0, i, key)
      invariant forall k: nat :: k < i ==> !KeepsMissingAt(live, ms, k)
    {
      if ms[i].Put? {
        if ms[i].ignores && ms[i].key !in put && ms[i].key !in live {
          assert KeepsMissingAt(live, ms, i);
          return true;
        }
        put := put + {ms[i].key};
      }
      forall key: Key ensures key in put <==> PutBefore(ms, 0, i + 1, key) {
        assert PutBefore(ms, 0, i + 1, key) <==> PutBefore(ms, 0, i, key) || (ms[i].Put? && ms[i].key == key);
      }
      i := i + 1;
    }
    r := false;
  }

  /** Whether any put in `ops`, in either branch of any nested txn, keeps a previous value or lease. */
  predicate AnyIgnores<C>(ops: seq<Op<C>>) {
    exists i :: 0 <= i < |ops| && OpIgnores(ops[i])
  }

  predicate OpIgnores<C>(op: Op<C>) {
    match op
    case Mutate(m) => m.Put? && m.ignores
    case Range(_) => false
    case Nested(t) => AnyIgnores(t.success) || AnyIgnores(t.failure)
  }

  lemma {:induction false} ChosenIgnoresIsThere<C>(holds: C -> bool, ops: seq<Op<C>>, i: nat)
    requires i < |ChosenIn(holds, ops)| && ChosenIn(holds, ops)[i].Put? && ChosenIn(holds, ops)[i].ignores
    ensures AnyIgnores(ops)
    decreases ops
  {
    var first := ChosenOf(holds, ops[0]);
    if i < |first| {
      ChosenInOpIsThere(holds, ops[0], i);
    } else {
      ChosenIgnoresIsThere(holds, ops[1..], i - |first|);
      var k :| 0 <= k < |ops[1..]| && OpIgnores(ops[1..][k]);
      assert OpIgnores(ops[k + 1]);
    }
  }

  lemma {:induction false} ChosenInOpIsThere<C>(holds: C -> bool, op: Op<C>, i: nat)
    requires i < |ChosenOf(holds, op)| && ChosenOf(holds, op)[i].Put? && ChosenOf(holds, op)[i].ignores
    ensures OpIgnores(op)
    decreases op
  {
    if op.Nested? { ChosenInTxnIsThere(holds, op.txn, i); }
  }

  lemma {:induction false} ChosenInTxnIsThere<C>(holds: C -> bool, t: Txn<C>, i: nat)
    requires i < |Chosen(holds, t)| && Chosen(holds, t)[i].Put? && Chosen(holds, t)[i].ignores
    ensures AnyIgnores(t.success) || AnyIgnores(t.failure)
    decreases t
  {
    ChosenIgnoresIsThere(holds, Branch(holds, t), i);
  }

  /** The check on a txn; most keep nothing and need no compare evaluated. */
  method RefusesTxn<C>(live: set<Key>, holds: C -> bool, t: Txn<C>) returns (r: bool)
    ensures r <==> KeepsMissing(live, Chosen(holds, t))
  {
    if !AnyIgnores(t.success) && !AnyIgnores(t.failure) {
      if KeepsMissing(live, Chosen(holds, t)) {
        var i: nat :| KeepsMissingAt(live, Chosen(holds, t), i);
        ChosenInTxnIsThere(holds, t, i);
      }
      return false;
    }
    var ms := ChosenMutations(holds, t);
    r := KeepsMissingKey(live, ms);
  }

  // ---------- What a refusal here means ----------

  /** The chosen branches flattened: mutations and reads in the order they run. */
  datatype Action = Do(m: Mutation) | Look(rev: int)

  function ActionsOf<C>(holds: C -> bool, op: Op<C>): seq<Action> {
    match op
    case Mutate(m) => [Do(m)]
    case Range(rev) => [Look(rev)]
    case Nested(t) => Actions(holds, t)
  }

  function ActionsIn<C>(holds: C -> bool, ops: seq<Op<C>>): seq<Action> {
    if ops == [] then [] else ActionsOf(holds, ops[0]) + ActionsIn(holds, ops[1..])
  }

  function Actions<C>(holds: C -> bool, t: Txn<C>): seq<Action> {
    if holds(t.compares) then ActionsIn(holds, t.success) else ActionsIn(holds, t.failure)
  }

  function Mutations(acts: seq<Action>): seq<Mutation> {
    if acts == [] then []
    else
      var last := acts[|acts| - 1];
      Mutations(acts[..|acts| - 1]) + if last.Do? then [last.m] else []
  }

  function Act(s: Store, acts: seq<Action>, from: Outcome): Outcome {
    if acts == [] then from
    else
      var before := Act(s, acts[..|acts| - 1], from);
      if before.Refused? then before
      else match acts[|acts| - 1]
        case Do(m) => ApplyMutation(before.live, before.produced, m)
        case Look(rev) => ApplyRange(s, before.live, before.produced, rev)
  }

  lemma {:induction false} ActJoin(s: Store, a: seq<Action>, b: seq<Action>, from: Outcome)
    ensures Act(s, a + b, from) == Act(s, b, Act(s, a, from))
    decreases |b|
  {
    if b == [] {
      assert a + b == a;
    } else {
      ActJoin(s, a, b[..|b| - 1], from);
      assert (a + b)[..|a + b| - 1] == a + b[..|b| - 1];
    }
  }

  lemma {:induction false} MutationsJoin(a: seq<Action>, b: seq<Action>)
    ensures Mutations(a + b) == Mutations(a) + Mutations(b)
    decreases |b|
  {
    if b == [] {
      assert a + b == a;
    } else {
      MutationsJoin(a, b[..|b| - 1]);
      assert (a + b)[..|a + b| - 1] == a + b[..|b| - 1];
    }
  }

  lemma {:induction false} RefusedStays(s: Store, acts: seq<Action>, from: Outcome)
    requires from.Refused?
    ensures Act(s, acts, from) == from
  {
    if acts != [] { RefusedStays(s, acts[..|acts| - 1], from); }
  }

  /** Applying a nested txn is running its flattened actions; the check sees their mutations. */
  lemma {:induction false} FlattenOps<C>(s: Store, holds: C -> bool, ops: seq<Op<C>>, from: Outcome)
    ensures ApplyOps(s, holds, ops, from) == Act(s, ActionsIn(holds, ops), from)
    ensures ChosenIn(holds, ops) == Mutations(ActionsIn(holds, ops))
    decreases ops
  {
    if ops != [] {
      var first, rest := ActionsOf(holds, ops[0]), ActionsIn(holds, ops[1..]);
      ActJoin(s, first, rest, from);
      MutationsJoin(first, rest);
      FlattenOp(s, holds, ops[0], from);
      FlattenOps(s, holds, ops[1..], Act(s, first, from));
      if from.Refused? { RefusedStays(s, first + rest, from); }
    }
  }

  lemma {:induction false} FlattenOp<C>(s: Store, holds: C -> bool, op: Op<C>, from: Outcome)
    ensures ChosenOf(holds, op) == Mutations(ActionsOf(holds, op))
    ensures from.Applied? ==> Act(s, ActionsOf(holds, op), from) == ApplyOp(s, holds, op, from)
    decreases op
  {
    match op
    case Mutate(m) => assert [Do(m)][..0] == [];
    case Range(rev) => assert [Look(rev)][..0] == [];
    case Nested(t) => FlattenTxn(s, holds, t, from);
  }

  /** Whether `key` is live after `ms`, by its last put or covering delete. */
  predicate LiveAfter(live: set<Key>, ms: seq<Mutation>, key: Key) {
    if ms == [] then key in live
    else
      var front := ms[..|ms| - 1];
      match ms[|ms| - 1]
      case Put(k, _) => k == key || LiveAfter(live, front, key)
      case DeleteRange(k, end) => !InRange(key, k, end) && LiveAfter(live, front, key)
  }

  /** An earlier delete covers `key` and nothing puts it back before `i`. */
  ghost predicate DeletedBefore(ms: seq<Mutation>, i: nat, key: Key) {
    exists j: nat :: j < i && DeletesAt(ms, j, key) && !PutBefore(ms, j, i, key)
  }

  predicate DeletesAt(ms: seq<Mutation>, j: nat, key: Key) {
    j < |ms| && ms[j].DeleteRange? && InRange(key, ms[j].key, ms[j].end)
  }

  lemma {:induction false} LiveAfterExactly(live: set<Key>, ms: seq<Mutation>, i: nat, key: Key)
    requires i <= |ms|
    ensures !LiveAfter(live, ms[..i], key) <==> (key !in live && !PutBefore(ms, 0, i, key)) || DeletedBefore(ms, i, key)
  {
    if i > 0 {
      LiveAfterExactly(live, ms, i - 1, key);
      assert ms[..i][..i - 1] == ms[..i - 1];
      assert forall j: nat :: PutBefore(ms, j, i, key) <==>
        PutBefore(ms, j, i - 1, key) || (j <= i - 1 && ms[i - 1].Put? && ms[i - 1].key == key);
      if DeletesAt(ms, i - 1, key) {
        assert !PutBefore(ms, i - 1, i, key);
        assert DeletedBefore(ms, i, key);
      }
    }
  }

  /** While nothing is refused, the live keys are what the mutations so far leave. */
  lemma {:induction false} LiveMatches(s: Store, acts: seq<Action>, key: Key)
    requires Act(s, acts, Applied(s.live, false)).Applied?
    ensures key in Act(s, acts, Applied(s.live, false)).live <==> LiveAfter(s.live, Mutations(acts), key)
  {
    if acts != [] {
      var front, last := acts[..|acts| - 1], acts[|acts| - 1];
      LiveMatches(s, front, key);
      var ms := Mutations(acts);
      if last.Do? {
        assert ms[..|ms| - 1] == Mutations(front) && ms[|ms| - 1] == last.m;
      } else {
        assert ms == Mutations(front);
      }
    }
  }

  /** Action `i` is a put, or a delete of a key that is live when it runs. */
  ghost predicate WritesAt(s: Store, acts: seq<Action>, i: nat) {
    && i < |acts| && acts[i].Do?
    && match acts[i].m
       case Put(_, _) => true
       case DeleteRange(key, end) => exists k: Key :: InRange(k, key, end) && LiveAfter(s.live, Mutations(acts[..i]), k)
  }

  lemma {:induction false} LastWrites(s: Store, acts: seq<Action>)
    requires acts != [] && Act(s, acts, Applied(s.live, false)).Applied?
    ensures var before, after := Act(s, acts[..|acts| - 1], Applied(s.live, false)), Act(s, acts, Applied(s.live, false));
            before.Applied? && (after.produced <==> before.produced || WritesAt(s, acts, |acts| - 1))
  {
    var front, last := acts[..|acts| - 1], acts[|acts| - 1];
    var before := Act(s, front, Applied(s.live, false));
    if last.Do? && last.m.DeleteRange? {
      forall k: Key ensures k in before.live <==> LiveAfter(s.live, Mutations(front), k) { LiveMatches(s, front, k); }
      var kept := set k | k in before.live && !InRange(k, last.m.key, last.m.end);
      if kept != before.live {
        var k :| k in before.live && k !in kept;
      }
    }
  }

  /** A txn that is not refused makes a revision exactly if one of its actions puts, or deletes a key that is
      there when it runs: a delete that finds nothing makes none. */
  lemma {:induction false} ProducesExactly(s: Store, acts: seq<Action>)
    requires Act(s, acts, Applied(s.live, false)).Applied?
    ensures Act(s, acts, Applied(s.live, false)).produced <==> exists i: nat :: WritesAt(s, acts, i)
  {
    if acts != [] {
      var front := acts[..|acts| - 1];
      LastWrites(s, acts);
      ProducesExactly(s, front);
      forall i: nat | i < |front| ensures WritesAt(s, acts, i) <==> WritesAt(s, front, i) {
        assert acts[..i] == front[..i];
      }
    }
  }

  /** Mutation `i` needs a key that is not live when it runs. */
  predicate NeedsMissing(live: set<Key>, ms: seq<Mutation>, i: nat) {
    i < |ms| && ms[i].Put? && ms[i].ignores && !LiveAfter(live, ms[..i], ms[i].key)
  }

  lemma {:induction false} RefusedMeansMissing(s: Store, acts: seq<Action>) returns (i: nat)
    requires Act(s, acts, Applied(s.live, false)) == Refused(KeyNotFound)
    ensures NeedsMissing(s.live, Mutations(acts), i)
  {
    var front, last, ms := acts[..|acts| - 1], acts[|acts| - 1], Mutations(acts);
    if Act(s, front, Applied(s.live, false)).Refused? {
      i := RefusedMeansMissing(s, front);
      assert ms[..i] == Mutations(front)[..i];
    } else {
      i := |ms| - 1;
      LiveMatches(s, front, last.m.key);
      assert ms[..i] == Mutations(front);
    }
  }

  lemma {:induction false} MissingMeansRefused(s: Store, acts: seq<Action>, i: nat)
    requires NeedsMissing(s.live, Mutations(acts), i)
    ensures Act(s, acts, Applied(s.live, false)).Refused?
    decreases |acts|
  {
    var front, last, ms := acts[..|acts| - 1], acts[|acts| - 1], Mutations(acts);
    if i < |Mutations(front)| {
      assert ms[..i] == Mutations(front)[..i];
      MissingMeansRefused(s, front, i);
    } else if Act(s, front, Applied(s.live, false)).Applied? {
      assert ms[..i] == Mutations(front);
      LiveMatches(s, front, ms[i].key);
    }
  }

  /** Refused here, refused there: if the check finds a kept missing key, applying the txn to that same
      state is refused, at every nesting depth and whatever the compares say. */
  lemma RefusalIsSound<C>(s: Store, holds: C -> bool, t: Txn<C>)
    requires KeepsMissing(s.live, Chosen(holds, t))
    ensures ApplyTxn(s, holds, t, Applied(s.live, false)).Refused?
  {
    var ms, acts := Chosen(holds, t), Actions(holds, t);
    FlattenTxn(s, holds, t, Applied(s.live, false));
    var i: nat :| KeepsMissingAt(s.live, ms, i);
    LiveAfterExactly(s.live, ms, i, ms[i].key);
    MissingMeansRefused(s, acts, i);
  }

  lemma {:induction false} FlattenTxn<C>(s: Store, holds: C -> bool, t: Txn<C>, from: Outcome)
    ensures ApplyTxn(s, holds, t, from) == Act(s, Actions(holds, t), from)
    ensures Chosen(holds, t) == Mutations(Actions(holds, t))
    decreases t
  {
    if holds(t.compares) {
      FlattenOps(s, holds, t.success, from);
    } else {
      FlattenOps(s, holds, t.failure, from);
    }
  }

  /** Some chosen put keeps what an earlier chosen delete took away: the one case left to the apply. */
  ghost predicate KeepsDeleted(ms: seq<Mutation>) {
    exists i: nat :: KeepsDeletedAt(ms, i)
  }

  ghost predicate KeepsDeletedAt(ms: seq<Mutation>, i: nat) {
    i < |ms| && ms[i].Put? && ms[i].ignores && DeletedBefore(ms, i, ms[i].key)
  }

  /** Where no read in the txn is refused, the apply refuses exactly what the check refuses and the puts
      that keep something the txn itself deleted. */
  lemma RefusalIsExact<C>(s: Store, holds: C -> bool, t: Txn<C>)
    requires ApplyTxn(s, holds, t, Applied(s.live, false)) != Refused(BadRevision)
    ensures ApplyTxn(s, holds, t, Applied(s.live, false)) == Refused(KeyNotFound)
       <==> KeepsMissing(s.live, Chosen(holds, t)) || KeepsDeleted(Chosen(holds, t))
  {
    var ms, acts := Chosen(holds, t), Actions(holds, t);
    FlattenTxn(s, holds, t, Applied(s.live, false));
    var outcome := ApplyTxn(s, holds, t, Applied(s.live, false));
    if outcome == Refused(KeyNotFound) {
      var i := RefusedMeansMissing(s, acts);
      LiveAfterExactly(s.live, ms, i, ms[i].key);
      assert KeepsMissingAt(s.live, ms, i) || KeepsDeletedAt(ms, i);
    }
    if KeepsMissing(s.live, ms) { RefusalIsSound(s, holds, t); }
    if KeepsDeleted(ms) {
      var i: nat :| KeepsDeletedAt(ms, i);
      LiveAfterExactly(s.live, ms, i, ms[i].key);
      MissingMeansRefused(s, acts, i);
    }
    assert outcome.Refused? ==> outcome.why == KeyNotFound;
  }
}
