/** The proposer: queued proposals go out in order, several to a log entry, and
    every caller gets the answer to its own. */
module Proposer {

  import opened Batch
  import opened Common

  /** A queued proposal. `caller` names the waiting reply channel. */
  datatype Pending<X> = Pending(entry: X, bytes: nat, caller: nat)

  const MAX_BATCH := 4096
  const MAX_BATCH_BYTES := 512 * 1024
  const USIZE_MAX := 0xFFFF_FFFF_FFFF_FFFF

  function SaturatingAdd(a: nat, b: nat): nat { if a + b > USIZE_MAX then USIZE_MAX else a + b }

  function Bytes<X>(ps: seq<Pending<X>>): nat {
    if ps == [] then 0 else Bytes(ps[..|ps| - 1]) + ps[|ps| - 1].bytes
  }

  /** A sum: one proposal counts its bytes, and several add up. */
  lemma {:induction false} BytesAdd<X>(a: seq<Pending<X>>, b: seq<Pending<X>>)
    ensures Bytes(a + b) == Bytes(a) + Bytes(b) && (|b| == 1 ==> Bytes(b) == b[0].bytes)
    decreases |b|
  {
    if b == [] {
      assert a + b == a;
    } else {
      BytesAdd(a, b[..|b| - 1]);
      assert (a + b)[..|a + b| - 1] == a + b[..|b| - 1];
    }
  }

  /** One submission: alone, or a batch within both limits. */
  predicate Allowed<X>(batch: seq<Pending<X>>) {
    |batch| == 1 || (1 < |batch| <= MAX_BATCH && Bytes(batch) <= MAX_BATCH_BYTES)
  }

  predicate AllAllowed<X>(batches: seq<seq<Pending<X>>>) {
    forall i :: 0 <= i < |batches| ==> Allowed(batches[i])
  }

  /** The batch could not have taken `next` as well. */
  predicate Full<X>(batch: seq<Pending<X>>, next: Pending<X>) {
    |batch| >= MAX_BATCH || Bytes(batch) + next.bytes > MAX_BATCH_BYTES
  }

  function Concat<T>(parts: seq<seq<T>>): seq<T> {
    if parts == [] then [] else Concat(parts[..|parts| - 1]) + parts[|parts| - 1]
  }

  function Carried<X>(carry: Option<Pending<X>>): seq<Pending<X>> { if carry.Some? then [carry.value] else [] }

  lemma Sent<T>(parts: seq<seq<T>>, batch: seq<T>, rest: seq<T>)
    ensures Concat(parts + [batch]) + rest == Concat(parts) + (batch + rest)
  {
    assert (parts + [batch])[..|parts|] == parts;
  }

  lemma More<T>(sent: seq<T>, first: seq<T>, queue: seq<T>, waiting: seq<T>)
    ensures sent + (first + (queue + waiting)) == (sent + (first + queue)) + waiting
  {
  }

  class Queue<X> {
    var queue: seq<Pending<X>>
    var carry: Option<Pending<X>>
    var submitted: seq<seq<Pending<X>>>
    /** Every proposal ever queued, in order. */
    ghost var queued: seq<Pending<X>>

    /** Nothing lost, duplicated or reordered, and every submission within the limits. */
    ghost predicate Valid()
      reads this
    {
      && Concat(submitted) + (Carried(carry) + queue) == queued
      && AllAllowed(submitted)
    }

    constructor ()
      ensures Valid() && queued == [] && submitted == []
    {
      queue, carry, submitted, queued := [], None, [], [];
    }

    method Enqueue(p: Pending<X>)
      requires Valid()
      modifies this
      ensures Valid() && queued == old(queued) + [p] && submitted == old(submitted) && carry == old(carry)
      ensures queue == old(queue) + [p]
    {
      assert Concat(submitted) + (Carried(carry) + (queue + [p])) == queued + [p];
      queue, queued := queue + [p], queued + [p];
    }

    /** The next proposal: the one carried over, else the head of the queue. */
    method Take() returns (first: Pending<X>)
      requires carry.Some? || queue != []
      modifies this`queue, this`carry
      ensures carry.None? && [first] + queue == old(Carried(carry) + queue)
    {
      if carry.Some? {
        first, carry := carry.value, None;
      } else {
        first, queue := queue[0], queue[1..];
      }
    }

    /** Fill a batch that starts with `first`: as much of the queue, in order, as fits. */
    method Fill(first: Pending<X>) returns (batch: seq<Pending<X>>)
      requires carry.None?
      modifies this`queue, this`carry
      ensures batch + (Carried(carry) + queue) == [first] + old(queue)
      ensures Allowed(batch) && batch[0] == first
      ensures Carried(carry) + queue != [] ==> Full(batch, (Carried(carry) + queue)[0])
    {
      batch := [first];
      var bytes := first.bytes;
      while |batch| < MAX_BATCH && queue != []
        invariant batch != [] && batch[0] == first
        invariant bytes == Bytes(batch) && Allowed(batch) && carry.None?
        invariant batch + queue == [first] + old(queue)
        decreases |queue|
      {
        var p := queue[0];
        ghost var rest := queue[1..];
        assert queue == [p] + rest;
        if SaturatingAdd(bytes, p.bytes) <= MAX_BATCH_BYTES {
          assert (batch + [p])[..|batch|] == batch;
          assert batch + queue == (batch + [p]) + rest;
          queue, bytes, batch := queue[1..], bytes + p.bytes, batch + [p];
        } else {
          queue, carry := queue[1..], Some(p);
          break;
        }
      }
    }

    /** One turn of the loop: nothing to do on an empty queue, a single proposal when batching is gated
        off, else a batch. `waiting` queued while the turn waited for its permit. */
    method Turn(gateOpen: bool, waiting: seq<Pending<X>>) returns (batch: seq<Pending<X>>)
      requires Valid()
      modifies this
      ensures Valid()
      ensures batch == [] ==> old(Carried(carry) + queue) == [] && submitted == old(submitted) && queued == old(queued)
      ensures batch != [] ==> submitted == old(submitted) + [batch]
      ensures !gateOpen ==> |batch| <= 1 && queued == old(queued)
      ensures gateOpen && batch != [] ==> queued == old(queued) + waiting
      ensures gateOpen && batch != [] && Carried(carry) + queue != [] ==> Full(batch, (Carried(carry) + queue)[0])
    {
      if carry.None? && queue == [] { return []; }
      var first := Take();
      if gateOpen {
        More(Concat(submitted), [first], queue, waiting);
        queue, queued := queue + waiting, queued + waiting;
        batch := Fill(first);
      } else {
        batch := [first];
      }
      Send(batch);
    }

    /** Hand a batch to raft. */
    method Send(batch: seq<Pending<X>>)
      requires AllAllowed(submitted) && Allowed(batch)
      requires Concat(submitted) + (batch + (Carried(carry) + queue)) == queued
      modifies this`submitted
      ensures Valid() && submitted == old(submitted) + [batch]
    {
      Sent(submitted, batch, Carried(carry) + queue);
      submitted := submitted + [batch];
    }
  }

  // ---------- Submitting and answering ----------

  /** What raft gives back for one entry: an answer, or several for a batch. */
  datatype Response<R> = One(r: R) | Several(rs: seq<R>)
  datatype Result<T> = Ok(value: T) | Err(error: string)

  function Entries<X>(batch: seq<Pending<X>>): seq<X> { seq(|batch|, i requires 0 <= i < |batch| => batch[i].entry) }

  /** The log entry a submission becomes. */
  function AsItem<X>(batch: seq<Pending<X>>): Item<X>
    requires batch != []
  {
    if |batch| == 1 then Plain(batch[0].entry) else Many(Entries(batch))
  }

  /** `submit`'s replies: one per caller, in the batch's order. */
  method Reply<X, R>(batch: seq<Pending<X>>, answer: Result<Response<R>>) returns (replies: seq<(nat, Result<R>)>)
    requires batch != [] && (answer.Ok? && |batch| == 1 ==> answer.value.One?)
    ensures |replies| == |batch| && forall i :: 0 <= i < |batch| ==> replies[i].0 == batch[i].caller
    ensures answer.Ok? && answer.value.One? && |batch| == 1 ==> replies[0].1 == Ok(answer.value.r)
    ensures answer.Ok? && answer.value.Several? && |answer.value.rs| == |batch| ==>
      forall i :: 0 <= i < |batch| ==> replies[i].1 == Ok(answer.value.rs[i])
    ensures answer.Err? ==> forall i :: 0 <= i < |batch| ==> replies[i].1 == Err(answer.error)
    ensures answer.Err? || (|batch| > 1 && (answer.value.One? || |answer.value.rs| != |batch|)) ==>
      forall i :: 0 <= i < |batch| ==> replies[i].1.Err?
  {
    if |batch| == 1 {
      return [(batch[0].caller, if answer.Ok? then Ok(answer.value.r) else Err(answer.error))];
    }
    replies := [];
    var i := 0;
    while i < |batch|
      invariant i == |replies| <= |batch|
      invariant forall k :: 0 <= k < i ==> replies[k].0 == batch[k].caller
      invariant answer.Ok? && answer.value.Several? && |answer.value.rs| == |batch| ==>
        forall k :: 0 <= k < i ==> replies[k].1 == Ok(answer.value.rs[k])
      invariant answer.Err? ==> forall k :: 0 <= k < i ==> replies[k].1 == Err(answer.error)
      invariant answer.Err? || answer.value.One? || |answer.value.rs| != |batch| ==>
        forall k :: 0 <= k < i ==> replies[k].1.Err?
    {
      var r := match answer
        case Err(e) => Err(e)
        case Ok(One(_)) => Err("unexpected response")
        case Ok(Several(rs)) => if |rs| == |batch| then Ok(rs[i]) else Err("unexpected response");
      replies, i := replies + [(batch[i].caller, r)], i + 1;
    }
  }

  lemma OneByItself<S(!new), X(!new), R>(f: (S, X) -> Out<S, R>, l: Live<S>, index: nat, x: X)
    requires Honest(f) && l.commits != []
    ensures Execute(f, StageApplied(l, index + 1), [x]).store == Fold(f, l.store, [x])
    ensures Answers(f, l.store, [x]) == [f(l.store, x).resp]
  {
    assert [x][..0] == [];
    if !Wrote(f, l.store, [x]) { UnwrittenUnchanged(f, l.store, [x]); }
  }

  /** The callers' replies: to each the answer to its own entry. */
  predicate Answered<X, R(==)>(ps: seq<Pending<X>>, answers: seq<R>, replies: seq<(nat, Result<R>)>) {
    |replies| == |ps| == |answers| && forall i :: 0 <= i < |ps| ==> replies[i] == (ps[i].caller, Ok(answers[i]))
  }

  /** A submission proposed, applied at log index `index` and answered: every caller gets the answer to its
      own entry, as if the entries had been applied one after the other, and the store is what that leaves. */
  method ServeBatch<S(!new), X(!new), R>(m: Machine<S, X, R>, index: nat, batch: seq<Pending<X>>, noop: R)
      returns (replies: seq<(nat, Result<R>)>)
    requires batch != [] && m.commits != [] && Honest(m.f)
    modifies m
    ensures Answered(batch, Answers(m.f, old(m.store), Entries(batch)), replies)
    ensures m.commits != [] && m.store == Fold(m.f, old(m.store), Entries(batch))
  {
    var entries := Entries(batch);
    if |batch| == 1 {
      var x := batch[0].entry;
      assert entries == [x];
      OneByItself(m.f, m.View(), index, x);
      var r := m.ApplyPlain(index, x);
      replies := Reply(batch, Ok(One(r)));
    } else {
      BatchedStore(m.f, m.g, m.View(), index, entries, 0, false);
      assert entries[0..] == entries;
      var out := m.ApplyBatch(index, entries, 0, _ => false, noop);
      assert out.value == Blanks(0, noop) + Answers(m.f, old(m.store), entries);
      assert out.value == Answers(m.f, old(m.store), entries);
      replies := Reply(batch, Ok(Several(out.value)));
    }
  }

  predicate NoneEmpty<T>(parts: seq<seq<T>>) { forall i :: 0 <= i < |parts| ==> parts[i] != [] }

  /** The log the submissions make, in order. */
  function Log<X>(submitted: seq<seq<Pending<X>>>): (log: seq<Item<X>>)
    requires NoneEmpty(submitted)
  {
    seq(|submitted|, i requires 0 <= i < |submitted| => AsItem(submitted[i]))
  }

  /** The answers the first `n` entries of the log get, one after the other; `after(a, b)` are those to
      requests `b` once requests `a` are applied. */
  function InTurn<X, R>(after: (seq<X>, seq<X>) -> seq<R>, log: seq<Item<X>>, n: nat): seq<R>
    requires n <= |log|
  {
    if n == 0 then [] else InTurn(after, log, n - 1) + after(Flat(log, n - 1), Requests(log[n - 1]))
  }

  function After<S, X, R>(f: (S, X) -> Out<S, R>, s0: S): (seq<X>, seq<X>) -> seq<R> {
    (a: seq<X>, b: seq<X>) => Answers(f, Fold(f, s0, a), b)
  }

  ghost predicate Joins<X, R>(after: (seq<X>, seq<X>) -> seq<R>, a: seq<X>, b: seq<X>) {
    after([], a + b) == after([], a) + after(a, b)
  }

  lemma RequestsOf<X>(batch: seq<Pending<X>>)
    requires batch != []
    ensures Requests(AsItem(batch)) == Entries(batch)
  {
  }

  lemma EntriesJoin<X>(a: seq<Pending<X>>, b: seq<Pending<X>>)
    ensures Entries(a + b) == Entries(a) + Entries(b)
  {
  }

  lemma {:induction false} LogHoldsTheQueue<X>(submitted: seq<seq<Pending<X>>>, n: nat)
    requires NoneEmpty(submitted) && n <= |submitted|
    ensures Flat(Log(submitted), n) == Entries(Concat(submitted[..n]))
  {
    if n > 0 {
      var last := submitted[n - 1];
      LogHoldsTheQueue(submitted, n - 1);
      assert submitted[..n][..n - 1] == submitted[..n - 1];
      RequestsOf(last);
      EntriesJoin(Concat(submitted[..n - 1]), last);
    }
  }

  lemma {:induction false} AnsweredInTurn<X(!new), R>(after: (seq<X>, seq<X>) -> seq<R>, log: seq<Item<X>>, n: nat)
    requires n <= |log| && after([], []) == [] && forall a, b :: Joins(after, a, b)
    ensures InTurn(after, log, n) == after([], Flat(log, n))
  {
    if n > 0 {
      AnsweredInTurn(after, log, n - 1);
      assert Joins(after, Flat(log, n - 1), Requests(log[n - 1]));
    }
  }

  lemma AnswersJoinUp<S, X(!new), R>(f: (S, X) -> Out<S, R>, s0: S)
    ensures After(f, s0)([], []) == [] && forall a, b :: Joins(After(f, s0), a, b)
  {
    forall a: seq<X>, b: seq<X> ensures Joins(After(f, s0), a, b) {
      AnswersJoin(f, s0, a, b);
    }
  }

  /** However the proposals were grouped: the store and the answers, caller by caller, are those of every
      proposal applied on its own in the order it was queued. */
  lemma GroupingIsInvisible<S, X(!new), R>(f: (S, X) -> Out<S, R>, s0: S, submitted: seq<seq<Pending<X>>>)
    requires NoneEmpty(submitted)
    ensures var log, all := Log(submitted), Entries(Concat(submitted));
            && Fold(f, s0, Flat(log, |log|)) == Fold(f, s0, all)
            && InTurn(After(f, s0), log, |log|) == Answers(f, s0, all)
  {
    LogHoldsTheQueue(submitted, |submitted|);
    assert submitted[..|submitted|] == submitted;
    AnswersJoinUp(f, s0);
    AnsweredInTurn(After(f, s0), Log(submitted), |submitted|);
  }

  lemma AnsweredJoin<X, R>(
      a: seq<Pending<X>>, b: seq<Pending<X>>, ra: seq<R>, rb: seq<R>,
      replies: seq<(nat, Result<R>)>, more: seq<(nat, Result<R>)>)
    requires Answered(a, ra, replies) && Answered(b, rb, more)
    ensures Answered(a + b, ra + rb, replies + more)
  {
  }

  /** After the first `n` submissions: the store they leave, and their answers in turn. */
  ghost predicate Served<S, X, R>(
      f: (S, X) -> Out<S, R>, s0: S, submitted: seq<seq<Pending<X>>>, n: nat, store: S, replies: seq<(nat, Result<R>)>)
  {
    && NoneEmpty(submitted) && n <= |submitted|
    && store == Fold(f, s0, Flat(Log(submitted), n))
    && Answered(Concat(submitted[..n]), InTurn(After(f, s0), Log(submitted), n), replies)
  }

  lemma FlatNext<X>(submitted: seq<seq<Pending<X>>>, n: nat)
    requires NoneEmpty(submitted) && n < |submitted|
    ensures Requests(Log(submitted)[n]) == Entries(submitted[n])
    ensures Flat(Log(submitted), n + 1) == Flat(Log(submitted), n) + Entries(submitted[n])
  {
    RequestsOf(submitted[n]);
  }

  lemma ConcatNext<T>(parts: seq<seq<T>>, n: nat)
    requires n < |parts|
    ensures Concat(parts[..n + 1]) == Concat(parts[..n]) + parts[n]
  {
    assert parts[..n + 1][..n] == parts[..n];
  }

  lemma NextInLine<X, R>(
      after: (seq<X>, seq<X>) -> seq<R>, submitted: seq<seq<Pending<X>>>, n: nat,
      replies: seq<(nat, Result<R>)>, more: seq<(nat, Result<R>)>)
    requires NoneEmpty(submitted) && n < |submitted|
    requires Answered(Concat(submitted[..n]), InTurn(after, Log(submitted), n), replies)
    requires Answered(submitted[n], after(Flat(Log(submitted), n), Entries(submitted[n])), more)
    ensures Answered(Concat(submitted[..n + 1]), InTurn(after, Log(submitted), n + 1), replies + more)
    ensures Flat(Log(submitted), n + 1) == Flat(Log(submitted), n) + Entries(submitted[n])
  {
    var log, batch := Log(submitted), submitted[n];
    FlatNext(submitted, n);
    ConcatNext(submitted, n);
    assert InTurn(after, log, n + 1) == InTurn(after, log, n) + after(Flat(log, n), Entries(batch));
    AnsweredJoin(Concat(submitted[..n]), batch, InTurn(after, log, n), after(Flat(log, n), Entries(batch)), replies, more);
  }

  lemma ServedNext<S, X, R>(
      f: (S, X) -> Out<S, R>, s0: S, submitted: seq<seq<Pending<X>>>, n: nat, store: S, store': S,
      replies: seq<(nat, Result<R>)>, more: seq<(nat, Result<R>)>)
    requires Served(f, s0, submitted, n, store, replies) && n < |submitted|
    requires Answered(submitted[n], Answers(f, store, Entries(submitted[n])), more)
    requires store' == Fold(f, store, Entries(submitted[n]))
    ensures Served(f, s0, submitted, n + 1, store', replies + more)
  {
    var batch := submitted[n];
    NextInLine(After(f, s0), submitted, n, replies, more);
    FoldJoin(f, s0, Flat(Log(submitted), n), Entries(batch));
  }

  /** What was submitted is the head of what was queued, and its answers the head of the answers to it all. */
  lemma ServedAll<S, X(!new), R>(
      f: (S, X) -> Out<S, R>, s0: S, submitted: seq<seq<Pending<X>>>, rest: seq<Pending<X>>,
      store: S, replies: seq<(nat, Result<R>)>)
    requires Served(f, s0, submitted, |submitted|, store, replies)
    ensures var queued := Concat(submitted) + rest;
            && |replies| == |Concat(submitted)|
            && |Entries(queued)| == |queued|
            && queued[..|replies|] == Concat(submitted)
            && Answered(queued[..|replies|], Answers(f, s0, Entries(queued))[..|replies|], replies)
            && store == Fold(f, s0, Entries(queued[..|replies|]))
  {
    var sent := Concat(submitted);
    assert submitted[..|submitted|] == submitted;
    GroupingIsInvisible(f, s0, submitted);
    LogHoldsTheQueue(submitted, |submitted|);
    EntriesJoin(sent, rest);
    AnswersJoin(f, s0, Entries(sent), Entries(rest));
    assert (sent + rest)[..|replies|] == sent;
  }

  /** Everything a queue submitted, served in turn at whatever log indexes it got: the `i`-th reply goes to
      the `i`-th caller that queued, with the answer its entry gets when all that was queued is applied one
      by one. Once nothing is left in the queue, that is every caller. */
  method ServeAll<S(!new), X(!new), R>(q: Queue<X>, m: Machine<S, X, R>, at: nat -> nat, noop: R)
      returns (replies: seq<(nat, Result<R>)>)
    requires q.Valid() && m.commits != [] && Honest(m.f)
    modifies m
    ensures |replies| == |Concat(q.submitted)| <= |q.queued| == |Answers(m.f, old(m.store), Entries(q.queued))|
    ensures Answered(q.queued[..|replies|], Answers(m.f, old(m.store), Entries(q.queued))[..|replies|], replies)
    ensures m.commits != [] && m.store == Fold(m.f, old(m.store), Entries(q.queued[..|replies|]))
    ensures q.carry.None? && q.queue == [] ==> |replies| == |q.queued|
  {
    replies := [];
    ghost var s0 := m.store;
    var n := 0;
    while n < |q.submitted|
      invariant n <= |q.submitted| && m.commits != []
      invariant Served(m.f, s0, q.submitted, n, m.store, replies)
    {
      ghost var before := m.store;
      var more := ServeBatch(m, at(n), q.submitted[n], noop);
      ServedNext(m.f, s0, q.submitted, n, before, m.store, replies, more);
      replies, n := replies + more, n + 1;
    }
    ServedAll(m.f, s0, q.submitted, Carried(q.carry) + q.queue, m.store, replies);
  }
}
