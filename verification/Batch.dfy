/** Applying committed entries, batched ones included. What an apply does to
    the store is an arbitrary deterministic function; everything here is about
    which sub-entries take effect, in which order, and how often, across
    crashes that each keep a prefix of the engine's commits. */
module Batch {

  import opened Common

  /** What applying one request does: the new store, the answer, and whether it committed anything. */
  datatype Out<S, R> = Out(store: S, resp: R, wrote: bool)

  /** A log entry's payload: one request, several in one entry, or none. */
  datatype Item<X> = Plain(x: X) | Many(subs: seq<X>) | Blank

  /** What one engine commit leaves in the data file. `applied` is the applied index + 1. */
  datatype Image<S> = Image(store: S, applied: nat, progress: Option<(nat, nat)>)

  /** The running state machine: the commits made and the metadata staged for the next one. */
  datatype Live<S> = Live(
    commits: seq<Image<S>>, store: S, stagedApplied: Option<nat>, stagedProgress: Option<(nat, nat)>)

  /** Most sub-entries applied in one commit. */
  const MAX_RUN := 256

  /** A request that commits nothing changes nothing. */
  ghost predicate Honest<S(!new), X(!new), R>(f: (S, X) -> Out<S, R>) {
    forall s, x :: !f(s, x).wrote ==> f(s, x).store == s
  }

  // ---------- The reference: each request once, in order ----------

  function Fold<S, X, R>(f: (S, X) -> Out<S, R>, s: S, xs: seq<X>): S {
    if xs == [] then s else f(Fold(f, s, xs[..|xs| - 1]), xs[|xs| - 1]).store
  }

  function Answers<S, X, R>(f: (S, X) -> Out<S, R>, s: S, xs: seq<X>): (rs: seq<R>)
    ensures |rs| == |xs|
  {
    if xs == [] then []
    else
      var front := xs[..|xs| - 1];
      Answers(f, s, front) + [f(Fold(f, s, front), xs[|xs| - 1]).resp]
  }

  function Wrote<S, X, R>(f: (S, X) -> Out<S, R>, s: S, xs: seq<X>): bool {
    if xs == [] then false
    else
      var front := xs[..|xs| - 1];
      Wrote(f, s, front) || f(Fold(f, s, front), xs[|xs| - 1]).wrote
  }

  function Requests<X>(item: Item<X>): seq<X> {
    match item
    case Plain(x) => [x]
    case Many(subs) => subs
    case Blank => []
  }

  /** The requests of the first `n` entries, in order. */
  function Flat<X>(log: seq<Item<X>>, n: nat): seq<X>
    requires n <= |log|
  {
    if n == 0 then [] else Flat(log, n - 1) + Requests(log[n - 1])
  }

  /** The requests of entries `..k` and the first `j` of entry `k`. */
  function Taken<X>(log: seq<Item<X>>, k: nat, j: nat): seq<X>
    requires At(log, k, j)
  {
    if j == 0 then Flat(log, k) else Flat(log, k) + Requests(log[k])[..j]
  }

  /** Position `j` of entry `k`, which may be the end of the log. */
  predicate At<X>(log: seq<Item<X>>, k: nat, j: nat) {
    k <= |log| && (j == 0 || (k < |log| && j <= |Requests(log[k])|))
  }

  /** The store at position `(k, j)` when each request before it was applied exactly once, in order. */
  function Reference<S, X, R>(f: (S, X) -> Out<S, R>, s0: S, log: seq<Item<X>>): (nat, nat) -> S {
    (k: nat, j: nat) => if At(log, k, j) then Fold(f, s0, Taken(log, k, j)) else s0
  }

  /** `ref` moves by the requests between two positions of an entry, and from its end to the next. */
  ghost predicate Follows<S, X, R>(f: (S, X) -> Out<S, R>, ref: (nat, nat) -> S, log: seq<Item<X>>) {
    forall k: nat, j: nat, end: nat :: Links(f, ref, log, k, j, end)
  }

  ghost predicate Links<S, X, R>(
      f: (S, X) -> Out<S, R>, ref: (nat, nat) -> S, log: seq<Item<X>>, k: nat, j: nat, end: nat)
  {
    k < |log| && j <= end <= |Requests(log[k])| ==>
      && ref(k, end) == Fold(f, ref(k, j), Requests(log[k])[j..end])
      && (end == |Requests(log[k])| ==> ref(k + 1, 0) == ref(k, end))
  }

  lemma TakenJoin<X>(log: seq<Item<X>>, k: nat, j: nat, end: nat)
    requires k < |log| && j <= end <= |Requests(log[k])|
    ensures Taken(log, k, end) == Taken(log, k, j) + Requests(log[k])[j..end]
  {
    assert Requests(log[k])[..j] + Requests(log[k])[j..end] == Requests(log[k])[..end];
  }

  lemma TakenAll<X>(log: seq<Item<X>>, k: nat)
    requires k < |log|
    ensures Taken(log, k + 1, 0) == Taken(log, k, |Requests(log[k])|)
  {
    assert Requests(log[k])[..|Requests(log[k])|] == Requests(log[k]);
  }

  lemma ReferenceFollows<S, X, R>(f: (S, X) -> Out<S, R>, s0: S, log: seq<Item<X>>)
    ensures Follows(f, Reference(f, s0, log), log)
  {
    forall k: nat, j: nat, end: nat ensures Links(f, Reference(f, s0, log), log, k, j, end) {
      if k < |log| && j <= end <= |Requests(log[k])| {
        FoldJoin(f, s0, Taken(log, k, j), Requests(log[k])[j..end]);
        TakenJoin(log, k, j, end);
        TakenAll(log, k);
      }
    }
  }

  lemma {:induction false} FoldJoin<S, X, R>(f: (S, X) -> Out<S, R>, s: S, a: seq<X>, b: seq<X>)
    ensures Fold(f, s, a + b) == Fold(f, Fold(f, s, a), b)
    decreases |b|
  {
    if b == [] {
      assert a + b == a;
    } else {
      FoldJoin(f, s, a, b[..|b| - 1]);
      assert (a + b)[..|a + b| - 1] == a + b[..|b| - 1];
    }
  }

  lemma {:induction false} AnswersJoin<S, X, R>(f: (S, X) -> Out<S, R>, s: S, a: seq<X>, b: seq<X>)
    ensures Answers(f, s, a + b) == Answers(f, s, a) + Answers(f, Fold(f, s, a), b)
    decreases |b|
  {
    if b == [] {
      assert a + b == a;
    } else {
      AnswersJoin(f, s, a, b[..|b| - 1]);
      FoldJoin(f, s, a, b[..|b| - 1]);
      assert (a + b)[..|a + b| - 1] == a + b[..|b| - 1];
    }
  }

  /** Each request is answered on the store the ones before it leave. */
  lemma {:induction false} AnswerAt<S, X, R>(f: (S, X) -> Out<S, R>, s: S, xs: seq<X>, i: nat)
    requires i < |xs|
    ensures Answers(f, s, xs)[i] == f(Fold(f, s, xs[..i]), xs[i]).resp
    ensures Fold(f, s, xs[..i + 1]) == f(Fold(f, s, xs[..i]), xs[i]).store
    decreases |xs|
  {
    var front := xs[..|xs| - 1];
    assert xs[..i + 1][..i] == xs[..i];
    if i < |front| {
      AnswerAt(f, s, front, i);
      assert front[..i] == xs[..i];
    }
  }

  /** Requests that commit nothing leave the store as it was. */
  lemma {:induction false} UnwrittenUnchanged<S(!new), X(!new), R>(f: (S, X) -> Out<S, R>, s: S, xs: seq<X>)
    requires Honest(f) && !Wrote(f, s, xs)
    ensures Fold(f, s, xs) == s
  {
    if xs != [] { UnwrittenUnchanged(f, s, xs[..|xs| - 1]); }
  }

  // ---------- The persisted progress ----------

  /** `n` as `k` bytes, most significant first. */
  function ToBytes(n: nat, k: nat): (b: seq<nat>)
    ensures |b| == k
  {
    if k == 0 then [] else ToBytes(n / 256, k - 1) + [n % 256]
  }

  function FromBytes(b: seq<nat>): nat { if b == [] then 0 else 256 * FromBytes(b[..|b| - 1]) + b[|b| - 1] }

  /** Counted from the end, byte `i` is the `i`-th digit to the base of 256. */
  lemma {:induction false} BytesDigit(n: nat, k: nat, i: nat)
    requires i < k
    ensures IsDigit(n, i, ToBytes(n, k)[k - 1 - i])
  {
    if i == 0 {
      FirstDigit(n);
    } else {
      BytesDigit(n / 256, k - 1, i - 1);
      NextDigit(n, i - 1, ToBytes(n, k)[k - 1 - i]);
    }
  }

  lemma {:induction false} BytesRoundTrip(n: nat, k: nat)
    requires n < Pow256(k)
    ensures FromBytes(ToBytes(n, k)) == n
  {
    if k > 0 {
      BytesRoundTrip(n / 256, k - 1);
      assert ToBytes(n, k)[..k - 1] == ToBytes(n / 256, k - 1);
    }
  }

  function EncodeProgress(index: nat, done: nat): seq<nat> { ToBytes(index, 8) + ToBytes(done, 8) }

  function DecodeProgress(b: seq<nat>): Option<(nat, nat)> {
    if |b| < 16 then None else Some((FromBytes(b[..8]), FromBytes(b[8..16])))
  }

  /** What is staged is what is read back at open, for 64-bit values. */
  lemma ProgressRoundTrip(index: nat, done: nat)
    requires index < Pow256(8) && done < Pow256(8)
    ensures DecodeProgress(EncodeProgress(index, done)) == Some((index, done))
  {
    BytesRoundTrip(index, 8);
    BytesRoundTrip(done, 8);
    assert EncodeProgress(index, done)[..8] == ToBytes(index, 8);
    assert EncodeProgress(index, done)[8..16] == ToBytes(done, 8);
  }

  // ---------- The code: staging and committing ----------

  function EffectiveApplied<S>(l: Live<S>): nat
    requires l.commits != []
  {
    if l.stagedApplied.Some? then l.stagedApplied.value else l.commits[|l.commits| - 1].applied
  }

  function EffectiveProgress<S>(l: Live<S>): Option<(nat, nat)>
    requires l.commits != []
  {
    if l.stagedProgress.Some? then l.stagedProgress else l.commits[|l.commits| - 1].progress
  }

  /** One engine commit: the writes and whatever metadata is staged, together. */
  function Commit<S>(l: Live<S>, store: S): Live<S>
    requires l.commits != []
  {
    Live(l.commits + [Image(store, EffectiveApplied(l), EffectiveProgress(l))], store, None, None)
  }

  /** `flush_raft_meta`: commit staged metadata no apply picked up. */
  function Flush<S>(l: Live<S>): Live<S>
    requires l.commits != []
  {
    if l.stagedApplied.None? && l.stagedProgress.None? then l else Commit(l, l.store)
  }

  /** Run requests in one commit, or in none if none of them writes. */
  function Execute<S, X, R>(f: (S, X) -> Out<S, R>, l: Live<S>, xs: seq<X>): Live<S>
    requires l.commits != []
  {
    if Wrote(f, l.store, xs) then Commit(l, Fold(f, l.store, xs)) else l
  }

  /** How many of `subs[j..]`, at most MAX_RUN, go into one shared commit. */
  function RunLength<X>(g: X -> bool, subs: seq<X>, j: nat, n: nat): (r: nat)
    requires j + n <= |subs| && n <= MAX_RUN
    ensures n <= r <= MAX_RUN && j + r <= |subs|
    ensures forall i :: j + n <= i < j + r ==> g(subs[i])
    ensures r < MAX_RUN && j + r < |subs| ==> !g(subs[j + r])
    decreases MAX_RUN - n
  {
    if n < MAX_RUN && j + n < |subs| && g(subs[j + n]) then RunLength(g, subs, j, n + 1) else n
  }

  /** Where the commit unit that starts at sub-entry `j` ends. */
  function UnitEnd<X>(g: X -> bool, subs: seq<X>, j: nat): (end: nat)
    requires j < |subs|
    ensures j < end <= |subs|
    ensures forall i :: j < i < end ==> g(subs[i])
  {
    var r := RunLength(g, subs, j, 0);
    if r > 1 then j + r else j + 1
  }

  function StageProgress<S>(l: Live<S>, index: nat, done: nat): Live<S> { l.(stagedProgress := Some((index, done))) }

  function StageApplied<S>(l: Live<S>, applied: nat): Live<S> { l.(stagedApplied := Some(applied)) }

  /** One turn of `apply_batch`'s loop. */
  function Unit<S, X, R>(f: (S, X) -> Out<S, R>, l: Live<S>, index: nat, subs: seq<X>, j: nat, end: nat): Live<S>
    requires l.commits != [] && j < end <= |subs|
  {
    var staged := StageProgress(l, index, end);
    var ready := if end == |subs| then StageApplied(staged, index + 1) else staged;
    Execute(f, ready, subs[j..end])
  }

  /** `apply_batch` from sub-entry `j` on; `staged` once the applied index has been. */
  function Batched<S, X, R>(
      f: (S, X) -> Out<S, R>, g: X -> bool, l: Live<S>, index: nat, subs: seq<X>, j: nat, staged: bool): (l': Live<S>)
    requires l.commits != [] && j <= |subs|
    ensures l'.commits != []
    decreases |subs| - j
  {
    if j == |subs| then
      if staged then l else StageApplied(l, index + 1)
    else
      var end := UnitEnd(g, subs, j);
      Batched(f, g, Unit(f, l, index, subs, j, end), index, subs, end, end == |subs|)
  }

  lemma UnitStore<S(!new), X(!new), R>(f: (S, X) -> Out<S, R>, l: Live<S>, index: nat, subs: seq<X>, j: nat, end: nat)
    requires Honest(f) && l.commits != [] && j < end <= |subs|
    ensures Fold(f, Unit(f, l, index, subs, j, end).store, subs[end..]) == Fold(f, l.store, subs[j..])
  {
    assert subs[j..end] + subs[end..] == subs[j..];
    FoldJoin(f, l.store, subs[j..end], subs[end..]);
    if !Wrote(f, l.store, subs[j..end]) { UnwrittenUnchanged(f, l.store, subs[j..end]); }
  }

  /** However it is cut into units, a batch leaves the store its sub-entries leave in turn. */
  lemma {:induction false} BatchedStore<S(!new), X(!new), R>(
      f: (S, X) -> Out<S, R>, g: X -> bool, l: Live<S>, index: nat, subs: seq<X>, j: nat, staged: bool)
    requires Honest(f) && l.commits != [] && j <= |subs|
    ensures Batched(f, g, l, index, subs, j, staged).store == Fold(f, l.store, subs[j..])
    decreases |subs| - j
  {
    if j < |subs| {
      var end := UnitEnd(g, subs, j);
      UnitStore(f, l, index, subs, j, end);
      BatchedStore(f, g, Unit(f, l, index, subs, j, end), index, subs, end, end == |subs|);
    }
  }

  /** What is answered to `n` sub-entries that are not applied again. */
  function Blanks<R>(n: nat, noop: R): seq<R> { seq(n, _ => noop) }

  function Owed<S, X, R>(f: (S, X) -> Out<S, R>, subs: seq<X>): (S, nat) -> seq<R> {
    (s: S, j: nat) => if j < |subs| then Answers(f, s, subs[j..]) else []
  }

  /** What is owed from `j` on: what the unit up to `end` answers, and what is owed from the store it leaves. */
  ghost predicate InUnits<S(!new), X, R>(
      f: (S, X) -> Out<S, R>, owed: (S, nat) -> seq<R>, index: nat, subs: seq<X>, l: Live<S>, j: nat, end: nat)
  {
    l.commits != [] && j < end <= |subs| ==>
      owed(l.store, j) == Answers(f, l.store, subs[j..end]) + owed(Unit(f, l, index, subs, j, end).store, end)
  }

  lemma OwedInUnits<S(!new), X(!new), R>(f: (S, X) -> Out<S, R>, index: nat, subs: seq<X>)
    requires Honest(f)
    ensures forall l: Live<S>, j, end :: InUnits(f, Owed(f, subs), index, subs, l, j, end)
  {
    forall l: Live<S>, j: nat, end: nat ensures InUnits(f, Owed(f, subs), index, subs, l, j, end) {
      if l.commits != [] && j < end <= |subs| {
        assert subs[j..end] + subs[end..] == subs[j..];
        AnswersJoin(f, l.store, subs[j..end], subs[end..]);
        if !Wrote(f, l.store, subs[j..end]) { UnwrittenUnchanged(f, l.store, subs[j..end]); }
      }
    }
  }

  /** The state machine's store handle, updated in place by `apply_batch`. */
  class Machine<S(!new), X(!new), R> {
    var commits: seq<Image<S>>
    var store: S
    var stagedApplied: Option<nat>
    var stagedProgress: Option<(nat, nat)>
    const f: (S, X) -> Out<S, R>
    const g: X -> bool

    constructor (img: Image<S>, f: (S, X) -> Out<S, R>, g: X -> bool)
      ensures View() == Live([img], img.store, None, None) && this.f == f && this.g == g
    {
      commits, store, stagedApplied, stagedProgress := [img], img.store, None, None;
      this.f, this.g := f, g;
    }

    ghost function View(): Live<S>
      reads this
    {
      Live(commits, store, stagedApplied, stagedProgress)
    }

    /** `apply_many`: the requests in order against one working copy, then one commit if any wrote. */
    method ApplyMany(xs: seq<X>) returns (out: seq<R>)
      requires commits != []
      modifies this
      ensures View() == Execute(f, old(View()), xs) && out == Answers(f, old(store), xs)
    {
      var local, wrote, i := store, false, 0;
      out := [];
      while i < |xs|
        invariant i <= |xs| && View() == old(View())
        invariant local == Fold(f, store, xs[..i]) && out == Answers(f, store, xs[..i])
        invariant wrote == Wrote(f, store, xs[..i])
      {
        assert xs[..i + 1][..i] == xs[..i];
        var r := f(local, xs[i]);
        local, wrote, out := r.store, wrote || r.wrote, out + [r.resp];
        i := i + 1;
      }
      assert xs[..i] == xs;
      if wrote {
        var last := commits[|commits| - 1];
        var applied := if stagedApplied.Some? then stagedApplied.value else last.applied;
        var progress := if stagedProgress.Some? then stagedProgress else last.progress;
        commits, store := commits + [Image(local, applied, progress)], local;
        stagedApplied, stagedProgress := None, None;
      }
    }

    /** One request that is a log entry of its own. */
    method ApplyPlain(index: nat, x: X) returns (r: R)
      requires commits != []
      modifies this
      ensures View() == Execute(f, StageApplied(old(View()), index + 1), [x]) && commits != []
      ensures r == f(old(store), x).resp
    {
      stagedApplied := Some(index + 1);
      var rs := ApplyMany([x]);
      assert [x][..0] == [];
      r := rs[0];
    }

    /** One turn of the loop: the next run of sub-entries, or one. */
    method ApplyUnit(index: nat, subs: seq<X>, j: nat) returns (end: nat, rs: seq<R>)
      requires commits != [] && j < |subs|
      modifies this
      ensures end == UnitEnd(g, subs, j)
      ensures View() == Unit(f, old(View()), index, subs, j, end) && commits != []
      ensures rs == Answers(f, old(store), subs[j..end])
    {
      end := UnitEnd(g, subs, j);
      stagedProgress := Some((index, end));
      if end == |subs| { stagedApplied := Some(index + 1); }
      rs := ApplyMany(subs[j..end]);
    }

    /** `apply_batch`. A nested batch is an error; otherwise the sub-entries from `skip` on are answered as
        each in turn, the ones before it with `noop`. */
    method ApplyBatch(index: nat, subs: seq<X>, skip: nat, nested: X -> bool, noop: R) returns (out: Option<seq<R>>)
      requires commits != [] && Honest(f) && forall x :: nested(x) ==> !g(x)
      modifies this
      ensures out.Some? <==> forall x <- subs :: !nested(x)
      ensures out.Some? ==>
        var from := if skip < |subs| then skip else |subs|;
        && View() == Batched(f, g, old(View()), index, subs, from, false)
        && out.value == Blanks(from, noop) + Answers(f, old(store), subs[from..])
    {
      ghost var owed := Owed(f, subs);
      OwedInUnits(f, index, subs);
      out := Loop(index, subs, skip, nested, noop, owed);
    }

    /** The loop; `owed(s, j)` are the answers from sub-entry `j` on if the store is `s`. */
    method Loop(index: nat, subs: seq<X>, skip: nat, nested: X -> bool, noop: R, ghost owed: (S, nat) -> seq<R>)
        returns (out: Option<seq<R>>)
      requires commits != [] && forall x :: nested(x) ==> !g(x)
      requires (forall l: Live<S>, j, end :: InUnits(f, owed, index, subs, l, j, end)) && forall s: S :: owed(s, |subs|) == []
      modifies this
      ensures out.Some? <==> forall x <- subs :: !nested(x)
      ensures out.Some? ==>
        var from := if skip < |subs| then skip else |subs|;
        && View() == Batched(f, g, old(View()), index, subs, from, false)
        && out.value == Blanks(from, noop) + owed(old(store), from)
    {
      var from := if skip < |subs| then skip else |subs|;
      var done, staged, j := [], false, 0;
      ghost var goal := Batched(f, g, View(), index, subs, from, false);
      ghost var target := Blanks(from, noop) + owed(store, from);
      while j < |subs|
        invariant j <= |subs| && commits != []
        invariant forall i :: 0 <= i < j ==> !nested(subs[i])
        invariant j <= from ==> View() == old(View()) && done == Blanks(j, noop) && !staged
        invariant j >= from ==> goal == Batched(f, g, View(), index, subs, j, staged)
        invariant j >= from ==> done + owed(store, j) == target
      {
        if nested(subs[j]) { return None; }
        if j < skip {
          done, j := done + [noop], j + 1;
        } else {
          ghost var before := View();
          var end, rs := ApplyUnit(index, subs, j);
          assert InUnits(f, owed, index, subs, before, j, end);
          Assoc(done, rs, owed(store, end));
          done, j, staged := done + rs, end, end == |subs|;
        }
      }
      if !staged { stagedApplied := Some(index + 1); }
      return Some(done);
    }
  }

  // ---------- The step system ----------

  /** The member at entry `k` with its first `j` requests done. `atOpen` is the batch progress read
      when the store was atOpen. */
  datatype Sm<S> = Sm(live: Live<S>, k: nat, j: nat, atOpen: Option<(nat, nat)>)

  /** Take the next commit unit, flush, crash back to one of the commits and reopen, or install
      another member's snapshot. */
  datatype Step<S> = Next | FlushMeta | Crash(c: nat) | Install(img: Image<S>)

  /** How many sub-entries of entry `k` are not applied again. */
  function Skip(atOpen: Option<(nat, nat)>, k: nat): nat {
    if atOpen.Some? && atOpen.value.0 == k then atOpen.value.1 else 0
  }

  function Done<S>(img: Image<S>): nat { Skip(img.progress, img.applied) }

  /** Where the member is once entry `k - 1` is done. */
  function Enter<S>(l: Live<S>, k: nat, atOpen: Option<(nat, nat)>): Sm<S> { Sm(l, k, Skip(atOpen, k), atOpen) }

  /** A snapshot is only installed when it is ahead of what is applied. */
  ghost predicate Enabled<S, X>(ref: (nat, nat) -> S, log: seq<Item<X>>, m: Sm<S>, step: Step<S>) {
    && m.live.commits != []
    && match step
       case Next => m.k < |log| && m.j <= |Requests(log[m.k])|
       case FlushMeta => true
       case Crash(c) => c < |m.live.commits|
       case Install(img) => img.applied > m.k && Good(ref, log, img) && Done(img) == 0
  }

  function Do<S, X, R>(f: (S, X) -> Out<S, R>, g: X -> bool, log: seq<Item<X>>, m: Sm<S>, step: Step<S>): (t: Sm<S>)
    requires m.live.commits != []
    requires step.Next? ==> m.k < |log| && m.j <= |Requests(log[m.k])|
    requires step.Crash? ==> step.c < |m.live.commits|
    ensures t.live.commits != []
  {
    match step
    case Next =>
      (match log[m.k]
       case Blank => Enter(StageApplied(m.live, m.k + 1), m.k + 1, m.atOpen)
       case Plain(x) => Enter(Execute(f, StageApplied(m.live, m.k + 1), [x]), m.k + 1, m.atOpen)
       case Many(subs) =>
         if m.j == |subs| then Enter(StageApplied(m.live, m.k + 1), m.k + 1, m.atOpen)
         else
           var end := UnitEnd(g, subs, m.j);
           var l := Unit(f, m.live, m.k, subs, m.j, end);
           if end == |subs| then Enter(l, m.k + 1, m.atOpen) else m.(live := l, j := end))
    case FlushMeta => m.(live := Flush(m.live))
    case Crash(c) =>
      var img := m.live.commits[c];
      Enter(Live([img], img.store, None, None), img.applied, img.progress)
    case Install(img) =>
      Enter(Live([img], img.store, None, None), img.applied, m.atOpen)
  }

  ghost predicate Reaches<S, X, R>(
      f: (S, X) -> Out<S, R>, g: X -> bool, ref: (nat, nat) -> S, log: seq<Item<X>>, m: Sm<S>, steps: seq<Step<S>>, t: Sm<S>)
    decreases |steps|
  {
    if steps == [] then m == t
    else Enabled(ref, log, m, steps[0]) && Reaches(f, g, ref, log, Do(f, g, log, m, steps[0]), steps[1..], t)
  }

  function Fresh<S>(s0: S): Sm<S> { Sm(Live([Image(s0, 0, None)], s0, None, None), 0, 0, None) }

  /** An image says exactly which requests it holds the effects of. */
  ghost predicate Good<S, X>(ref: (nat, nat) -> S, log: seq<Item<X>>, img: Image<S>) {
    && Resumable(log, img.applied, Done(img))
    && (img.progress.Some? ==> img.progress.value.0 <= img.applied)
    && img.store == ref(img.applied, Done(img))
  }

  /** Only a batch is ever left half done. */
  predicate Resumable<X>(log: seq<Item<X>>, k: nat, j: nat) {
    At(log, k, j) && (j > 0 ==> log[k].Many?)
  }

  ghost predicate Inv<S, X>(ref: (nat, nat) -> S, log: seq<Item<X>>, m: Sm<S>) {
    && m.live.commits != []
    && (forall c :: 0 <= c < |m.live.commits| ==> Good(ref, log, m.live.commits[c]))
    && Resumable(log, m.k, m.j)
    && m.live.store == ref(m.k, m.j)
    && m.live.commits[|m.live.commits| - 1].store == m.live.store
    && Pending(m.live, m.k, m.j)
    && (m.atOpen.Some? ==> m.atOpen.value.0 <= m.k)
  }

  /** A commit made now would record position `(k, j)`. */
  ghost predicate Pending<S>(l: Live<S>, k: nat, j: nat)
    requires l.commits != []
  {
    && EffectiveApplied(l) == k
    && Done(Image(l.store, k, EffectiveProgress(l))) == j
    && (EffectiveProgress(l).Some? ==> EffectiveProgress(l).value.0 <= k)
  }

  /** A commit unit brings the store from one position of the reference to the next, and any commit
      it makes records the position reached. */
  lemma ExecuteKeepsInv<S(!new), X(!new), R>(
      f: (S, X) -> Out<S, R>, ref: (nat, nat) -> S, log: seq<Item<X>>, m: Sm<S>, ready: Live<S>, xs: seq<X>, k: nat, j: nat)
    requires Honest(f) && Inv(ref, log, m) && Resumable(log, k, j) && m.k <= k
    requires ready.commits == m.live.commits && ready.store == m.live.store && Pending(ready, k, j)
    requires ref(k, j) == Fold(f, m.live.store, xs)
    ensures Inv(ref, log, Sm(Execute(f, ready, xs), k, j, m.atOpen))
  {
    if !Wrote(f, ready.store, xs) {
      UnwrittenUnchanged(f, ready.store, xs);
    }
  }

  lemma NextKeepsInv<S(!new), X(!new), R>(
      f: (S, X) -> Out<S, R>, g: X -> bool, ref: (nat, nat) -> S, log: seq<Item<X>>, m: Sm<S>)
    requires Honest(f) && Follows(f, ref, log) && Inv(ref, log, m) && Enabled(ref, log, m, Next)
    ensures Inv(ref, log, Do(f, g, log, m, Next))
  {
    match log[m.k]
    case Blank => EntryEndKeepsInv(f, ref, log, m, []);
    case Plain(x) => EntryEndKeepsInv(f, ref, log, m, [x]);
    case Many(subs) =>
      if m.j == |subs| {
        EntryEndKeepsInv(f, ref, log, m, []);
      } else {
        UnitKeepsInv(f, ref, log, m, UnitEnd(g, subs, m.j));
      }
  }

  /** The rest `xs` of entry `m.k`, run with only the applied index staged. */
  lemma EntryEndKeepsInv<S(!new), X(!new), R>(
      f: (S, X) -> Out<S, R>, ref: (nat, nat) -> S, log: seq<Item<X>>, m: Sm<S>, xs: seq<X>)
    requires Honest(f) && Follows(f, ref, log) && Inv(ref, log, m) && m.k < |log|
    requires m.j <= |Requests(log[m.k])| && Requests(log[m.k])[m.j..] == xs
    ensures Inv(ref, log, Sm(Execute(f, StageApplied(m.live, m.k + 1), xs), m.k + 1, 0, m.atOpen))
  {
    var n := |Requests(log[m.k])|;
    assert Links(f, ref, log, m.k, m.j, n);
    assert Requests(log[m.k])[m.j..n] == xs;
    ExecuteKeepsInv(f, ref, log, m, StageApplied(m.live, m.k + 1), xs, m.k + 1, 0);
  }

  /** One turn of the batch loop, up to sub-entry `end`. */
  lemma UnitKeepsInv<S(!new), X(!new), R>(
      f: (S, X) -> Out<S, R>, ref: (nat, nat) -> S, log: seq<Item<X>>, m: Sm<S>, end: nat)
    requires Honest(f) && Follows(f, ref, log) && Inv(ref, log, m)
    requires m.k < |log| && log[m.k].Many? && m.j < end <= |log[m.k].subs|
    ensures var l := Unit(f, m.live, m.k, log[m.k].subs, m.j, end);
            Inv(ref, log, if end == |log[m.k].subs| then Sm(l, m.k + 1, 0, m.atOpen) else Sm(l, m.k, end, m.atOpen))
  {
    var subs := log[m.k].subs;
    var staged := StageProgress(m.live, m.k, end);
    assert Links(f, ref, log, m.k, m.j, end);
    if end == |subs| {
      ExecuteKeepsInv(f, ref, log, m, StageApplied(staged, m.k + 1), subs[m.j..end], m.k + 1, 0);
    } else {
      ExecuteKeepsInv(f, ref, log, m, staged, subs[m.j..end], m.k, end);
    }
  }

  lemma StepKeepsInv<S(!new), X(!new), R>(
      f: (S, X) -> Out<S, R>, g: X -> bool, ref: (nat, nat) -> S, log: seq<Item<X>>, m: Sm<S>, step: Step<S>)
    requires Honest(f) && Follows(f, ref, log) && Inv(ref, log, m) && Enabled(ref, log, m, step)
    ensures Inv(ref, log, Do(f, g, log, m, step))
  {
    match step
    case Next => NextKeepsInv(f, g, ref, log, m);
    case FlushMeta =>
    case Crash(c) => assert Good(ref, log, m.live.commits[c]);
    case Install(img) =>
  }

  lemma {:induction false} EveryRunKeepsInv<S(!new), X(!new), R>(
      f: (S, X) -> Out<S, R>, g: X -> bool, ref: (nat, nat) -> S, log: seq<Item<X>>, m: Sm<S>, steps: seq<Step<S>>, t: Sm<S>)
    requires Honest(f) && Follows(f, ref, log) && Inv(ref, log, m) && Reaches(f, g, ref, log, m, steps, t)
    ensures Inv(ref, log, t)
    decreases |steps|
  {
    if steps != [] {
      StepKeepsInv(f, g, ref, log, m, steps[0]);
      EveryRunKeepsInv(f, g, ref, log, Do(f, g, log, m, steps[0]), steps[1..], t);
    }
  }

  /** Through any number of crashes, each back to any commit, and however replay splits the runs: the
      store is always that of the requests so far applied exactly once each, in log order; at the end of
      the log, each sub-entry as if it had been its own entry. */
  lemma EveryRequestOnce<S(!new), X(!new), R>(
      f: (S, X) -> Out<S, R>, g: X -> bool, s0: S, log: seq<Item<X>>, steps: seq<Step<S>>, t: Sm<S>)
    requires Honest(f) && Reaches(f, g, Reference(f, s0, log), log, Fresh(s0), steps, t)
    ensures At(log, t.k, t.j) && t.live.store == Fold(f, s0, Taken(log, t.k, t.j))
    ensures t.k == |log| ==> t.live.store == Fold(f, s0, Flat(log, |log|))
  {
    var ref := Reference(f, s0, log);
    ReferenceFollows(f, s0, log);
    EveryRunKeepsInv(f, g, ref, log, Fresh(s0), steps, t);
  }

  /** The batch loop over `size` sub-entries as functions: a turn from `j`, where it ends, and the rest. */
  datatype Turns<!S> = Turns(size: nat, turn: (Live<S>, nat) -> Live<S>, end: nat -> nat, rest: (Live<S>, nat) -> Live<S>)

  function TurnsOf<S, X, R>(f: (S, X) -> Out<S, R>, g: X -> bool, index: nat, subs: seq<X>): Turns<S> {
    Turns(|subs|,
          (l: Live<S>, j: nat) => if l.commits != [] && j < |subs| then Unit(f, l, index, subs, j, UnitEnd(g, subs, j)) else l,
          (j: nat) => if j < |subs| then UnitEnd(g, subs, j) else j + 1,
          (l: Live<S>, j: nat) => if l.commits != [] && j <= |subs| then Batched(f, g, l, index, subs, j, false) else l)
  }

  /** From `j < size` on: one turn, and the rest unless that was the last. */
  ghost predicate TurnsAt<S(!new)>(t: Turns<S>, l: Live<S>, j: nat) {
    l.commits != [] && j < t.size ==>
      && j < t.end(j) <= t.size && t.turn(l, j).commits != []
      && t.rest(l, j) == if t.end(j) < t.size then t.rest(t.turn(l, j), t.end(j)) else t.turn(l, j)
  }

  lemma TurnsAreBatched<S(!new), X(!new), R>(f: (S, X) -> Out<S, R>, g: X -> bool, index: nat, subs: seq<X>)
    ensures forall l: Live<S>, j: nat :: TurnsAt(TurnsOf(f, g, index, subs), l, j)
  {
    forall l: Live<S>, j: nat ensures TurnsAt(TurnsOf(f, g, index, subs), l, j) {
      if l.commits != [] && j < |subs| { OneTurn(f, g, l, index, subs, j); }
    }
  }

  /** `done(l, j)` holds at the start and is kept by every turn, so it holds at the end. */
  ghost predicate TurnKeeps<S(!new)>(t: Turns<S>, done: (Live<S>, nat) -> bool, l: Live<S>, j: nat) {
    l.commits != [] && j < t.size && done(l, j) ==> done(t.turn(l, j), t.end(j))
  }

  lemma {:induction false} TurnsKeep<S(!new)>(t: Turns<S>, done: (Live<S>, nat) -> bool, l: Live<S>, j: nat)
    requires (forall l: Live<S>, j: nat :: TurnsAt(t, l, j)) && (forall l: Live<S>, j: nat :: TurnKeeps(t, done, l, j))
    requires l.commits != [] && j < t.size && done(l, j)
    ensures done(t.rest(l, j), t.size)
    decreases t.size - j
  {
    assert TurnsAt(t, l, j) && TurnKeeps(t, done, l, j);
    if t.end(j) < t.size { TurnsKeep(t, done, t.turn(l, j), t.end(j)); }
  }

  /** The invariant with `j` sub-entries of entry `k` done. */
  ghost function InvAt<S, X>(
      ref: (nat, nat) -> S, log: seq<Item<X>>, k: nat, size: nat, atOpen: Option<(nat, nat)>): (Live<S>, nat) -> bool
  {
    (l: Live<S>, j: nat) => Inv(ref, log, if j == size then Sm(l, k + 1, 0, atOpen) else Sm(l, k, j, atOpen))
  }

  lemma TurnKeepsInv<S(!new), X(!new), R>(
      f: (S, X) -> Out<S, R>, g: X -> bool, ref: (nat, nat) -> S, log: seq<Item<X>>, k: nat, atOpen: Option<(nat, nat)>,
      l: Live<S>, j: nat)
    requires Honest(f) && Follows(f, ref, log) && k < |log| && log[k].Many?
    ensures TurnKeeps(TurnsOf(f, g, k, log[k].subs), InvAt(ref, log, k, |log[k].subs|, atOpen), l, j)
  {
    var subs := log[k].subs;
    if j < |subs| && Inv(ref, log, Sm(l, k, j, atOpen)) {
      UnitKeepsInv(f, ref, log, Sm(l, k, j, atOpen), UnitEnd(g, subs, j));
    }
  }

  /** `apply_batch`, resumed anywhere in its entry, ends with all of the entry applied exactly once and a
      next commit that says so. */
  lemma BatchedKeepsInv<S(!new), X(!new), R>(
      f: (S, X) -> Out<S, R>, g: X -> bool, ref: (nat, nat) -> S, log: seq<Item<X>>, m: Sm<S>)
    requires Honest(f) && Follows(f, ref, log) && Inv(ref, log, m)
    requires m.k < |log| && log[m.k].Many? && m.j <= |log[m.k].subs|
    ensures Inv(ref, log, Sm(Batched(f, g, m.live, m.k, log[m.k].subs, m.j, false), m.k + 1, 0, m.atOpen))
  {
    var subs := log[m.k].subs;
    if m.j == |subs| {
      EntryEndKeepsInv(f, ref, log, m, []);
    } else {
      var turns, done := TurnsOf(f, g, m.k, subs), InvAt(ref, log, m.k, |subs|, m.atOpen);
      TurnsAreBatched(f, g, m.k, subs);
      forall l: Live<S>, j: nat ensures TurnKeeps(turns, done, l, j) {
        TurnKeepsInv(f, g, ref, log, m.k, m.atOpen, l, j);
      }
      TurnsKeep(turns, done, m.live, m.j);
    }
  }

  lemma OneTurn<S, X, R>(f: (S, X) -> Out<S, R>, g: X -> bool, l: Live<S>, index: nat, subs: seq<X>, j: nat)
    requires l.commits != [] && j < |subs|
    ensures var end := UnitEnd(g, subs, j);
            var l' := Unit(f, l, index, subs, j, end);
            Batched(f, g, l, index, subs, j, false) == if end < |subs| then Batched(f, g, l', index, subs, end, false) else l'
  {
  }

  /** A flush commits the staged position and nothing else: the store, the work done and the commits before
      stay, and a crash back to the commit it leaves goes on exactly where the member was. */
  lemma FlushedResumes<S(!new), X(!new), R>(
      f: (S, X) -> Out<S, R>, g: X -> bool, ref: (nat, nat) -> S, log: seq<Item<X>>, m: Sm<S>)
    requires Inv(ref, log, m)
    ensures var t := Do(f, g, log, m, FlushMeta);
            var last := |t.live.commits| - 1;
            && m.live.commits <= t.live.commits && t.live.store == m.live.store && t.k == m.k && t.j == m.j
            && t.live.stagedApplied.None? && t.live.stagedProgress.None?
            && var u := Do(f, g, log, t, Crash(last));
               u.k == m.k && u.j == m.j && u.live.store == m.live.store
  {
  }

  // ---------- Installing a snapshot of a half-applied batch ----------

  /** A store that records every request it was given. */
  function Record<X>(): (seq<X>, X) -> Out<seq<X>, ()> { (s: seq<X>, x: X) => Out(s + [x], (), true) }

  lemma {:induction false} RecordedIsFold<X>(s: seq<X>, xs: seq<X>)
    ensures Fold(Record(), s, xs) == s + xs
  {
    if xs != [] {
      RecordedIsFold(s, xs[..|xs| - 1]);
      assert xs == xs[..|xs| - 1] + [xs[|xs| - 1]];
    }
  }

  /** The progress a snapshot body carries is not read by the member that installs it. Installing keeps
      the requests exactly once if and only if the snapshot was not taken of a half-applied batch. */
  lemma InstallExact<X(!new)>(log: seq<Item<X>>, m: Sm<seq<X>>, img: Image<seq<X>>)
    requires var ref := Reference(Record(), [], log);
             Inv(ref, log, m) && Good(ref, log, img) && img.applied > m.k
    ensures var t := Do(Record(), _ => false, log, m, Install(img));
            At(log, t.k, t.j) && (t.live.store == Taken(log, t.k, t.j) <==> Done(img) == 0)
  {
    RecordedIsFold([], Taken(log, img.applied, Done(img)));
    if Done(img) != 0 {
      assert |Taken(log, img.applied, Done(img))| > |Taken(log, img.applied, 0)|;
    }
  }

  /** Every sub-entry is a commit unit of its own. */
  function Apart(): int -> bool { (_: int) => false }

  lemma RecordsOne(l: Live<seq<int>>, x: int)
    requires l.commits != []
    ensures Execute(Record<int>(), l, [x]) == Commit(l, l.store + [x])
  {
    RecordedIsFold<int>(l.store, [x]);
  }

  /** A member that has applied half of its batch: its last commit is the image of that. */
  lemma HalfBatchCommitted(log: seq<Item<int>>, ref: (nat, nat) -> seq<int>) returns (half: Sm<seq<int>>)
    requires log == [Plain(0), Many([1, 2])]
    ensures Reaches(Record<int>(), Apart(), ref, log, Fresh([]), [Next, Next], half)
    ensures Image([0, 1], 1, Some((1, 1))) in half.live.commits
  {
    RecordsOne(Live([Image([], 0, None)], [], Some(1), None), 0);
    var one := Do(Record<int>(), Apart(), log, Fresh([]), Next);
    assert one.live.store == [0] && one.live.commits[1].applied == 1;
    half := Do(Record<int>(), Apart(), log, one, Next);
    assert [1, 2][0..1] == [1];
    RecordsOne(StageProgress(one.live, 1, 1), 1);
    assert half.live.store == [0, 1];
    assert half.live.commits[2] == Image([0, 1], 1, Some((1, 1)));
    var next: Step<seq<int>> := Next;
    assert [next, next][1..] == [next] && [next][1..] == [];
    assert Reaches(Record<int>(), Apart(), ref, log, one, [Next], half);
  }

  lemma HalfBatchIsGood(log: seq<Item<int>>)
    requires log == [Plain(0), Many([1, 2])]
    ensures Good(Reference(Record(), [], log), log, Image([0, 1], 1, Some((1, 1))))
  {
    assert Flat(log, 1) == [0];
    assert Taken(log, 1, 1) == [0, 1];
    RecordedIsFold<int>([], [0, 1]);
  }

  lemma HalfBatchInstalled(log: seq<Item<int>>)
    requires log == [Plain(0), Many([1, 2])]
    ensures var installed := Do(Record<int>(), Apart(), log, Fresh([]), Install(Image([0, 1], 1, Some((1, 1)))));
            Do(Record<int>(), Apart(), log, installed, Next).live.store == [0, 1, 1]
  {
    var installed := Do(Record<int>(), Apart(), log, Fresh([]), Install(Image([0, 1], 1, Some((1, 1)))));
    assert [1, 2][0..1] == [1];
    RecordsOne(StageProgress(installed.live, 1, 1), 1);
  }

  /** A member that stopped half-way through the batch `[1, 2]` gives a fresh member its snapshot:
      request 1 takes effect twice there. */
  lemma HalfBatchSnapshotAppliesTwice()
    ensures var log := [Plain(0), Many([1, 2])];
            var ref := Reference(Record(), [], log);
            var img := Image([0, 1], 1, Some((1, 1)));
            var installed := Do(Record(), Apart(), log, Fresh([]), Install(img));
            && (exists half ::
                  Reaches(Record(), Apart(), ref, log, Fresh([]), [Next, Next], half) && img in half.live.commits)
            && Good(ref, log, img)
            && Do(Record(), Apart(), log, installed, Next).live.store == [0, 1, 1]
  {
    var log := [Plain(0), Many([1, 2])];
    var half := HalfBatchCommitted(log, Reference(Record(), [], log));
    HalfBatchIsGood(log);
    HalfBatchInstalled(log);
  }
}
