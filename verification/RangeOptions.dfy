/** A Range's revision filters, sort and limit, applied to what the store
    returned. The sort is stable: equal records keep the store's key order. */
module RangeOptions {

  import opened Common
  import opened Keys

  datatype Record = Record(key: Key, value: Key, create: int, mod: int, version: int)
  datatype Target = ByKey | ByVersion | ByCreate | ByMod | ByValue
  datatype Order = Unordered | Ascend | Descend
  datatype Request = Request(
    limit: int, order: Order, target: Target, countOnly: bool,
    minMod: int, maxMod: int, minCreate: int, maxCreate: int)
  datatype Result = Result(kvs: seq<Record>, more: bool, count: nat)

  /** The target and whether ascending; none where the store's key order is the answer already. */
  function EffectiveOrder(req: Request): Option<(Target, bool)> {
    if req.order == Descend then Some((req.target, false))
    else if req.target == ByKey then None
    else Some((req.target, true))
  }

  predicate Filters(req: Request) {
    req.minMod != 0 || req.maxMod != 0 || req.minCreate != 0 || req.maxCreate != 0
  }

  predicate Applies(req: Request) { !req.countOnly && (EffectiveOrder(req).Some? || Filters(req)) }

  /** The limit to read the store with: none where the whole range is needed. */
  function StoreLimit(req: Request): nat { if Applies(req) || req.limit < 0 then 0 else req.limit }

  predicate Keep(req: Request, kv: Record) {
    && (req.maxMod == 0 || kv.mod <= req.maxMod) && (req.minMod == 0 || kv.mod >= req.minMod)
    && (req.maxCreate == 0 || kv.create <= req.maxCreate) && (req.minCreate == 0 || kv.create >= req.minCreate)
  }

  function Retain<T>(keep: T -> bool, xs: seq<T>): seq<T> {
    if xs == [] then [] else (if keep(xs[0]) then [xs[0]] else []) + Retain(keep, xs[1..])
  }

  predicate LeBy(target: Target, a: Record, b: Record) {
    match target
    case ByKey => Le(a.key, b.key)
    case ByVersion => a.version <= b.version
    case ByCreate => a.create <= b.create
    case ByMod => a.mod <= b.mod
    case ByValue => Le(a.value, b.value)
  }

  function Ordering(target: Target, ascending: bool): (Record, Record) -> bool {
    (a: Record, b: Record) => if ascending then LeBy(target, a, b) else LeBy(target, b, a)
  }

  // ---------- A stable sort ----------

  ghost predicate TotalPreorder<T(!new)>(le: (T, T) -> bool) {
    (forall a, b :: TotalAt(le, a, b)) && (forall a, b, c :: TransitiveAt(le, a, b, c))
  }

  predicate TotalAt<T>(le: (T, T) -> bool, a: T, b: T) { le(a, b) || le(b, a) }

  predicate TransitiveAt<T>(le: (T, T) -> bool, a: T, b: T, c: T) { le(a, b) && le(b, c) ==> le(a, c) }

  function Insert<T>(le: (T, T) -> bool, x: T, xs: seq<T>): seq<T> {
    if xs == [] || le(x, xs[0]) then [x] + xs else [xs[0]] + Insert(le, x, xs[1..])
  }

  function Sort<T>(le: (T, T) -> bool, xs: seq<T>): seq<T> {
    if xs == [] then [] else Insert(le, xs[0], Sort(le, xs[1..]))
  }

  ghost predicate Ordered<T>(le: (T, T) -> bool, xs: seq<T>) {
    forall i, j :: 0 <= i < j < |xs| ==> le(xs[i], xs[j])
  }

  lemma {:induction false} InsertAdds<T>(le: (T, T) -> bool, x: T, xs: seq<T>)
    ensures multiset(Insert(le, x, xs)) == multiset{x} + multiset(xs)
  {
    if xs != [] && !le(x, xs[0]) {
      InsertAdds(le, x, xs[1..]);
      assert xs == [xs[0]] + xs[1..];
    }
  }

  lemma {:induction false} InsertOrdered<T(!new)>(le: (T, T) -> bool, x: T, xs: seq<T>)
    requires TotalPreorder(le) && Ordered(le, xs)
    ensures Ordered(le, Insert(le, x, xs))
  {
    if xs != [] && !le(x, xs[0]) {
      var rest := Insert(le, x, xs[1..]);
      InsertOrdered(le, x, xs[1..]);
      InsertAdds(le, x, xs[1..]);
      assert TotalAt(le, x, xs[0]);
      forall k | 0 <= k < |rest| ensures le(xs[0], rest[k]) {
        assert rest[k] in multiset(rest);
        if rest[k] != x { assert rest[k] in multiset(xs[1..]); }
      }
    } else {
      forall k | 0 <= k < |xs| ensures le(x, xs[k]) { assert TransitiveAt(le, x, xs[0], xs[k]); }
    }
  }

  lemma {:induction false} SortOrdered<T(!new)>(le: (T, T) -> bool, xs: seq<T>)
    requires TotalPreorder(le)
    ensures Ordered(le, Sort(le, xs)) && multiset(Sort(le, xs)) == multiset(xs)
  {
    if xs != [] {
      SortOrdered(le, xs[1..]);
      InsertOrdered(le, xs[0], Sort(le, xs[1..]));
      InsertAdds(le, xs[0], Sort(le, xs[1..]));
      assert xs == [xs[0]] + xs[1..];
    }
  }

  /** The elements the order does not tell apart from `z`, in the order they stand. */
  function Ties<T>(le: (T, T) -> bool, z: T, xs: seq<T>): seq<T> { Retain((y: T) => le(y, z) && le(z, y), xs) }

  lemma RetainCons<T>(keep: T -> bool, x: T, xs: seq<T>)
    ensures Retain(keep, [x] + xs) == (if keep(x) then [x] else []) + Retain(keep, xs)
  {
    assert ([x] + xs)[1..] == xs;
  }

  lemma {:induction false} InsertStable<T(!new)>(le: (T, T) -> bool, x: T, xs: seq<T>, z: T)
    requires TotalPreorder(le)
    ensures Ties(le, z, Insert(le, x, xs)) == Ties(le, z, [x] + xs)
  {
    if xs != [] && !le(x, xs[0]) {
      var tied := (y: T) => le(y, z) && le(z, y);
      InsertStable(le, x, xs[1..], z);
      RetainCons(tied, xs[0], Insert(le, x, xs[1..]));
      RetainCons(tied, x, xs[1..]);
      RetainCons(tied, x, xs);
      assert TransitiveAt(le, x, z, xs[0]);
    }
  }

  lemma {:induction false} SortStable<T(!new)>(le: (T, T) -> bool, xs: seq<T>, z: T)
    requires TotalPreorder(le)
    ensures Ties(le, z, Sort(le, xs)) == Ties(le, z, xs)
  {
    if xs != [] {
      var tied := (y: T) => le(y, z) && le(z, y);
      SortStable(le, xs[1..], z);
      InsertStable(le, xs[0], Sort(le, xs[1..]), z);
      RetainCons(tied, xs[0], Sort(le, xs[1..]));
    }
  }

  lemma OrderingIsTotal(target: Target, ascending: bool)
    ensures TotalPreorder(Ordering(target, ascending))
  {
    var le := Ordering(target, ascending);
    forall a, b ensures TotalAt(le, a, b) {
      Trichotomy(a.key, b.key);
      Trichotomy(a.value, b.value);
    }
    forall a, b, c ensures TransitiveAt(le, a, b, c) {
      if !(le(a, b) && le(b, c)) {
      } else if target == ByKey {
        if ascending { LeTransitive(a.key, b.key, c.key); } else { LeTransitive(c.key, b.key, a.key); }
      } else if target == ByValue {
        if ascending { LeTransitive(a.value, b.value, c.value); } else { LeTransitive(c.value, b.value, a.value); }
      }
    }
  }

  // ---------- apply ----------

  /** What is left after the filters. */
  function Kept(req: Request, xs: seq<Record>): seq<Record> { Retain((kv: Record) => Keep(req, kv), xs) }

  /** The same in the order asked for. */
  function Arranged(req: Request, kvs: seq<Record>): seq<Record> {
    var kept := Kept(req, kvs);
    match EffectiveOrder(req)
    case None => kept
    case Some((target, ascending)) => Sort(Ordering(target, ascending), kept)
  }

  /** The filters, sort and limit of a request, on the store's whole range. */
  method Apply(req: Request, result: Result) returns (r: Result)
    ensures !Applies(req) ==> r == result
    ensures Applies(req) ==> r.count == result.count
    ensures Applies(req) ==> r.kvs <= Arranged(req, result.kvs)
    ensures Applies(req) ==> r.more == (0 < req.limit < |Arranged(req, result.kvs)|)
    ensures Applies(req) ==> |r.kvs| == if r.more then req.limit else |Arranged(req, result.kvs)|
  {
    if !Applies(req) { return result; }
    var kvs := Kept(req, result.kvs);
    match EffectiveOrder(req) {
      case None =>
      case Some((target, ascending)) => kvs := Sort(Ordering(target, ascending), kvs);
    }
    var limit := if req.limit > 0 then req.limit else 0;
    var more := limit > 0 && |kvs| > limit;
    if more { kvs := kvs[..limit]; }
    r := Result(kvs, more, result.count);
  }

  lemma {:induction false} RetainedExactly<T>(keep: T -> bool, xs: seq<T>, x: T)
    ensures x in Retain(keep, xs) <==> x in xs && keep(x)
  {
    if xs != [] {
      RetainedExactly(keep, xs[1..], x);
      assert xs == [xs[0]] + xs[1..];
    }
  }

  /** The arrangement holds exactly the records that pass the filters, as often as the store has them,
      in order, ties in the store's order. */
  lemma ArrangedExactly(req: Request, kvs: seq<Record>)
    ensures forall kv :: kv in Arranged(req, kvs) <==> kv in kvs && Keep(req, kv)
    ensures multiset(Arranged(req, kvs)) == multiset(Kept(req, kvs))
    ensures EffectiveOrder(req).Some? ==>
      var (target, ascending) := EffectiveOrder(req).value;
      var le := Ordering(target, ascending);
      && Ordered(le, Arranged(req, kvs))
      && forall z :: Ties(le, z, Arranged(req, kvs)) == Ties(le, z, Kept(req, kvs))
  {
    var kept := Kept(req, kvs);
    forall kv ensures kv in kept <==> kv in kvs && Keep(req, kv) {
      RetainedExactly((kv: Record) => Keep(req, kv), kvs, kv);
    }
    match EffectiveOrder(req)
    case None =>
    case Some((target, ascending)) =>
      var le := Ordering(target, ascending);
      OrderingIsTotal(target, ascending);
      SortOrdered(le, kept);
      assert forall kv :: kv in multiset(kept) <==> kv in kept;
      assert forall kv :: kv in multiset(Sort(le, kept)) <==> kv in Sort(le, kept);
      forall z ensures Ties(le, z, Sort(le, kept)) == Ties(le, z, kept) { SortStable(le, kept, z); }
  }

  /** `at` are exactly the indexes from `from` up to `hi` where `p` holds, ascending. */
  ghost predicate Places(p: nat -> bool, from: nat, hi: nat, at: seq<nat>) {
    && (forall k :: 0 <= k < |at| ==> from <= at[k] < hi && p(at[k]))
    && (forall j, k :: 0 <= j < k < |at| ==> at[j] < at[k])
    && (forall i: nat :: from <= i < hi && p(i) ==> i in at)
  }

  lemma PlacesNext(p: nat -> bool, from: nat, hi: nat, at: seq<nat>)
    requires from < hi && Places(p, from + 1, hi, at)
    ensures Places(p, from, hi, if p(from) then [from] + at else at)
  {
    if p(from) {
      var more := [from] + at;
      assert more[0] == from && forall k :: 0 < k < |more| ==> more[k] == at[k - 1];
      forall i: nat | from <= i < hi && p(i) ensures i in more {
        if i > from { assert i in at; }
      }
    }
  }

  ghost function Passes(req: Request, xs: seq<Record>): nat -> bool { (i: nat) => i < |xs| && Keep(req, xs[i]) }

  /** `kept` are the records of `xs` that pass, at their places in ascending order. */
  ghost predicate KeptAt(req: Request, xs: seq<Record>, from: nat, at: seq<nat>, kept: seq<Record>) {
    && Places(Passes(req, xs), from, |xs|, at) && |kept| == |at|
    && forall k :: 0 <= k < |at| ==> at[k] < |xs| && kept[k] == xs[at[k]]
  }

  lemma KeptFirst(req: Request, xs: seq<Record>, from: nat)
    requires from < |xs|
    ensures Kept(req, xs[from..]) == (if Keep(req, xs[from]) then [xs[from]] else []) + Kept(req, xs[from + 1..])
  {
    assert xs[from..][0] == xs[from] && xs[from..][1..] == xs[from + 1..];
  }

  /** Filtering keeps the store's order and drops nothing else. */
  lemma {:induction false} KeptInOrder(req: Request, xs: seq<Record>, from: nat) returns (at: seq<nat>)
    requires from <= |xs|
    ensures KeptAt(req, xs, from, at, Kept(req, xs[from..]))
    decreases |xs| - from
  {
    if from == |xs| {
      at := [];
    } else {
      var rest := KeptInOrder(req, xs, from + 1);
      var kept := Kept(req, xs[from + 1..]);
      PlacesNext(Passes(req, xs), from, |xs|, rest);
      KeptFirst(req, xs, from);
      at := if Keep(req, xs[from]) then [from] + rest else rest;
      if !Keep(req, xs[from]) { assert [] + kept == kept; }
    }
  }

  /** The store's own order is the answer exactly for ascending or unordered keys: the records kept, in it. */
  lemma StoreOrder(req: Request, kvs: seq<Record>)
    ensures EffectiveOrder(req).None? <==> req.target == ByKey && req.order != Descend
    ensures EffectiveOrder(req).None? ==> exists at: seq<nat> :: KeptAt(req, kvs, 0, at, Arranged(req, kvs))
  {
    var at := KeptInOrder(req, kvs, 0);
    assert kvs[0..] == kvs;
    if EffectiveOrder(req).None? { assert Arranged(req, kvs) == Kept(req, kvs); }
  }

  /** Within the four bounds, each of which counts only if it is not zero. */
  lemma KeepExactly(req: Request, kv: Record)
    ensures Keep(req, kv) <==>
      && (req.minMod != 0 ==> req.minMod <= kv.mod) && (req.maxMod != 0 ==> kv.mod <= req.maxMod)
      && (req.minCreate != 0 ==> req.minCreate <= kv.create) && (req.maxCreate != 0 ==> kv.create <= req.maxCreate)
  {
  }

  /** In the order asked for, on the record's own field: rising, or falling for a descending order. */
  lemma ArrangedByField(req: Request, kvs: seq<Record>, i: nat, j: nat)
    requires i < j < |Arranged(req, kvs)| && EffectiveOrder(req).Some?
    ensures var a, b := Arranged(req, kvs)[i], Arranged(req, kvs)[j];
            var (lo, hi) := if req.order == Descend then (b, a) else (a, b);
            match req.target
            case ByKey => Le(lo.key, hi.key)
            case ByVersion => lo.version <= hi.version
            case ByCreate => lo.create <= hi.create
            case ByMod => lo.mod <= hi.mod
            case ByValue => Le(lo.value, hi.value)
  {
    ArrangedExactly(req, kvs);
  }

  // ---------- A whole Range ----------

  /** What the store gives: its range in key order, cut to `limit` unless that is 0, and the count of it all. */
  function StoreRead(all: seq<Record>, limit: nat, countOnly: bool): Result {
    var more := !countOnly && 0 < limit < |all|;
    Result(if countOnly then [] else if more then all[..limit] else all, more, |all|)
  }

  lemma {:induction false} RetainsAll<T>(keep: T -> bool, xs: seq<T>)
    requires forall x <- xs :: keep(x)
    ensures Retain(keep, xs) == xs
  {
    if xs != [] { RetainsAll(keep, xs[1..]); }
  }

  /** Cutting in the store where that is allowed is never seen: whatever the options, the answer is the
      first `limit` records of the arrangement of the whole range. */
  method Range(req: Request, all: seq<Record>) returns (r: Result)
    ensures r.count == |all| && (req.countOnly ==> r.kvs == [] && !r.more)
    ensures !req.countOnly ==> r.more == (0 < req.limit < |Arranged(req, all)|)
    ensures !req.countOnly ==> r.kvs == if r.more then Arranged(req, all)[..req.limit] else Arranged(req, all)
  {
    if !Applies(req) && !req.countOnly { RetainsAll((kv: Record) => Keep(req, kv), all); }
    r := Apply(req, StoreRead(all, StoreLimit(req), req.countOnly));
  }

  // ---------- The reads of the lock service ----------

  /** The oldest key of a range. */
  function FirstCreate(): Request { Request(1, Ascend, ByCreate, false, 0, 0, 0, 0) }

  /** The newest key of a range created at or below `max`. */
  function LastCreateUpTo(max: int): Request { Request(1, Descend, ByCreate, false, 0, 0, 0, max) }

  method ReadFirstCreate(store: Result) returns (r: Result)
    ensures |r.kvs| <= 1 && (r.kvs == [] <==> store.kvs == [])
    ensures r.kvs != [] ==> r.kvs[0] in store.kvs && forall kv <- store.kvs :: r.kvs[0].create <= kv.create
  {
    r := Apply(FirstCreate(), store);
    HeadIsFirst(FirstCreate(), store.kvs);
    if store.kvs != [] { assert Keep(FirstCreate(), store.kvs[0]) && store.kvs[0] in store.kvs; }
  }

  method ReadLastCreate(store: Result, max: int) returns (r: Result)
    requires max >= 1
    ensures |r.kvs| <= 1 && (r.kvs == [] <==> forall kv <- store.kvs :: kv.create > max)
    ensures r.kvs != [] ==>
      && r.kvs[0] in store.kvs && r.kvs[0].create <= max
      && forall kv <- store.kvs :: kv.create <= max ==> kv.create <= r.kvs[0].create
  {
    r := Apply(LastCreateUpTo(max), store);
    HeadIsFirst(LastCreateUpTo(max), store.kvs);
    assert forall kv :: Keep(LastCreateUpTo(max), kv) <==> kv.create <= max;
  }

  lemma HeadIsFirst(req: Request, kvs: seq<Record>)
    requires EffectiveOrder(req).Some?
    ensures var all := Arranged(req, kvs);
            var (target, ascending) := EffectiveOrder(req).value;
            && (all == [] <==> forall kv <- kvs :: !Keep(req, kv))
            && (all != [] ==> all[0] in kvs && Keep(req, all[0]))
            && (all != [] ==> forall kv <- kvs :: Keep(req, kv) ==> kv == all[0] || Ordering(target, ascending)(all[0], kv))
  {
    ArrangedExactly(req, kvs);
    var all := Arranged(req, kvs);
    if all != [] {
      assert all[0] in all;
      var (target, ascending) := EffectiveOrder(req).value;
      forall kv | kv in kvs && Keep(req, kv) ensures kv == all[0] || Ordering(target, ascending)(all[0], kv) {
        assert kv in all;
        var k :| 0 <= k < |all| && all[k] == kv;
      }
    } else {
      forall kv | kv in kvs ensures !Keep(req, kv) { assert kv !in all; }
    }
  }
}
