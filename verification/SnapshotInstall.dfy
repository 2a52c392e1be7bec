/** Installing a snapshot body: decoded a record at a time into the operations of
    one engine commit. */
module SnapshotInstall {

  import opened Common
  import opened Keys
  import opened SnapshotBody

  const TABLES: nat := 3
  const META: nat := 2
  const RAFT_APPLIED: Key := [1]
  const RAFT_MEMBERSHIP: Key := [2]

  // ---------- Decoding ----------

  function DecPairs(pair: Codec<Pair>, n: nat, bs: Bytes): Dec<Table> {
    if n == 0 then Got([], bs)
    else match pair.dec(bs)
      case Eof => Eof
      case Bad => Bad
      case Got(p, rest) => Before([p], DecPairs(pair, n - 1, rest))
  }

  /** What was decoded earlier, in front. */
  function Before<T>(done: seq<T>, d: Dec<seq<T>>): Dec<seq<T>> { if d.Got? then Got(done + d.value, d.rest) else d }

  function DecTable<A, M, T, L>(f: Format<A, M, T, L>, bs: Bytes): Dec<Table> {
    match f.count.dec(bs)
    case Eof => Eof
    case Bad => Bad
    case Got(n, rest) => DecPairs(f.pair, n, rest)
  }

  function DecTables<A, M, T, L>(f: Format<A, M, T, L>, k: nat, bs: Bytes): Dec<seq<Table>> {
    if k == 0 then Got([], bs)
    else match DecTable(f, bs)
      case Eof => Eof
      case Bad => Bad
      case Got(t, rest) => Before([t], DecTables(f, k - 1, rest))
  }

  /** A decoded body; the trailers' tables where it has them. */
  datatype Body<A, M, T, L> = Body(applied: A, membership: M, tables: seq<Table>, auth: Option<T>, leases: Option<L>)

  /** Each trailer is optional; one with an unknown magic is an error. */
  function DecTrailers<A, M, T, L>(f: Format<A, M, T, L>, bs: Bytes): Option<(Option<T>, Option<L>)> {
    match f.auth.dec(bs)
    case Eof => Some((None, None))
    case Bad => None
    case Got(t, rest) =>
      if t.magic != TRAILER_MAGIC then None
      else match f.leases.dec(rest)
        case Eof => Some((t.tables, None))
        case Bad => None
        case Got(l, _) => if l.magic == LEASE_TRAILER_MAGIC then Some((t.tables, l.tables)) else None
  }

  function DecBody<A, M, T, L>(f: Format<A, M, T, L>, bs: Bytes): Option<Body<A, M, T, L>> {
    match f.applied.dec(bs)
    case Eof => None
    case Bad => None
    case Got(applied, rest) => DecAfterApplied(f, applied, rest)
  }

  function DecAfterApplied<A, M, T, L>(f: Format<A, M, T, L>, applied: A, bs: Bytes): Option<Body<A, M, T, L>> {
    match f.membership.dec(bs)
    case Eof => None
    case Bad => None
    case Got(membership, rest) =>
      var ts := DecTables(f, TABLES, rest);
      if !ts.Got? then None
      else
        var tail := DecTrailers(f, ts.rest);
        if tail.None? then None else Some(Body(applied, membership, ts.value, tail.value.0, tail.value.1))
  }

  // ---------- Round trip ----------

  lemma {:induction false} PairsRoundTrip(pair: Codec<Pair>, t: Table, rest: Bytes)
    requires Lawful(pair) && forall i :: 0 <= i < |t| ==> pair.fits(t[i])
    ensures DecPairs(pair, |t|, PairsBytes(pair, t) + rest) == Got(t, rest)
  {
    if t == [] {
      assert [] + rest == rest;
    } else {
      var more := PairsBytes(pair, t[1..]);
      PairsRoundTrip(pair, t[1..], rest);
      assert (pair.enc(t[0]) + more) + rest == pair.enc(t[0]) + (more + rest);
      assert Decodes(pair, t[0], more + rest);
      assert [t[0]] + t[1..] == t;
    }
  }

  lemma TableRoundTrip<A(!new), M(!new), T(!new), L(!new)>(f: Format<A, M, T, L>, t: Table, rest: Bytes)
    requires LawfulFormat(f) && TableFits(f, t)
    ensures DecTable(f, TableBytes(f, t) + rest) == Got(t, rest)
  {
    var pairs := PairsBytes(f.pair, t);
    assert TableBytes(f, t) + rest == f.count.enc(|t|) + (pairs + rest);
    assert Decodes(f.count, |t|, pairs + rest);
    PairsRoundTrip(f.pair, t, rest);
  }

  lemma OneTableMore<A, M, T, L>(f: Format<A, M, T, L>, t: Table, ts: seq<Table>, bs: Bytes, mid: Bytes, rest: Bytes)
    requires DecTable(f, bs) == Got(t, mid) && DecTables(f, |ts|, mid) == Got(ts, rest)
    ensures DecTables(f, |ts| + 1, bs) == Got([t] + ts, rest)
  {
  }

  lemma {:induction false} TablesRoundTrip<A(!new), M(!new), T(!new), L(!new)>(
      f: Format<A, M, T, L>, ts: seq<Table>, rest: Bytes)
    requires LawfulFormat(f) && AllFit(f, ts)
    ensures DecTables(f, |ts|, TablesBytes(f, ts) + rest) == Got(ts, rest)
  {
    if ts == [] {
      assert [] + rest == rest;
    } else {
      var more := TablesBytes(f, ts[1..]);
      assert TablesBytes(f, ts) + rest == TableBytes(f, ts[0]) + (more + rest);
      assert TableFits(f, ts[0]);
      TableRoundTrip(f, ts[0], more + rest);
      TablesRoundTrip(f, ts[1..], rest);
      OneTableMore(f, ts[0], ts[1..], TablesBytes(f, ts) + rest, more + rest, rest);
      assert [ts[0]] + ts[1..] == ts;
    }
  }

  function WholeBody<A, M, T, L>(src: Source<A, M, T, L>): Body<A, M, T, L> {
    Body(src.applied, src.membership, src.tables, Some(src.auth), Some(src.leases))
  }

  lemma TrailersRoundTrip<A(!new), M(!new), T(!new), L(!new)>(f: Format<A, M, T, L>, auth: T, leases: L)
    requires LawfulFormat(f) && f.auth.fits(Trailer(TRAILER_MAGIC, Some(auth)))
    requires f.leases.fits(Trailer(LEASE_TRAILER_MAGIC, Some(leases)))
    ensures DecTrailers(f, TrailerBytes(f, auth, leases)) == Some((Some(auth), Some(leases)))
  {
    var last := f.leases.enc(Trailer(LEASE_TRAILER_MAGIC, Some(leases)));
    assert Decodes(f.auth, Trailer(TRAILER_MAGIC, Some(auth)), last);
    assert last + [] == last;
    assert Decodes(f.leases, Trailer(LEASE_TRAILER_MAGIC, Some(leases)), []);
  }

  /** Decoding a body gives back everything it was written from. */
  lemma BodyRoundTrip<A(!new), M(!new), T(!new), L(!new)>(f: Format<A, M, T, L>, src: Source<A, M, T, L>)
    requires LawfulFormat(f) && Fits(f, src) && |src.tables| == TABLES
    ensures DecBody(f, BodyBytes(f, src)) == Some(WholeBody(src))
  {
    var applied, membership := f.applied.enc(src.applied), f.membership.enc(src.membership);
    var tables, tail := TablesBytes(f, src.tables), TrailerBytes(f, src.auth, src.leases);
    assert (applied + (membership + tables)) + tail == applied + (membership + (tables + tail));
    assert Decodes(f.applied, src.applied, membership + (tables + tail));
    assert Decodes(f.membership, src.membership, tables + tail);
    TablesRoundTrip(f, src.tables, tail);
    TrailersRoundTrip(f, src.auth, src.leases);
  }

  // ---------- Older bodies ----------

  /** A decoded body of `src` with whatever the trailers gave. */
  function BodyWith<A, M, T, L>(src: Source<A, M, T, L>, tail: Option<(Option<T>, Option<L>)>): Option<Body<A, M, T, L>> {
    if tail.None? then None
    else Some(Body(src.applied, src.membership, src.tables, tail.value.0, tail.value.1))
  }

  lemma PayloadThen<A(!new), M(!new), T(!new), L(!new)>(f: Format<A, M, T, L>, src: Source<A, M, T, L>, tail: Bytes)
    requires LawfulFormat(f) && Fits(f, src) && |src.tables| == TABLES
    ensures DecBody(f, PayloadBytes(f, src) + tail) == BodyWith(src, DecTrailers(f, tail))
  {
    var applied, membership := f.applied.enc(src.applied), f.membership.enc(src.membership);
    var tables := TablesBytes(f, src.tables);
    assert (applied + (membership + tables)) + tail == applied + (membership + (tables + tail));
    assert Decodes(f.applied, src.applied, membership + (tables + tail));
    assert Decodes(f.membership, src.membership, tables + tail);
    TablesRoundTrip(f, src.tables, tail);
  }

  /** The trailers a body may end with: none, the auth trailer, or that and the lease trailer. */
  datatype Trailers<T, L> = NoTrailer | AuthOnly(auth: Trailer<T>) | AuthAndLeases(auth: Trailer<T>, leases: Trailer<L>)

  function TrailersBytes<A, M, T, L>(f: Format<A, M, T, L>, ts: Trailers<T, L>): Bytes {
    match ts
    case NoTrailer => []
    case AuthOnly(a) => f.auth.enc(a)
    case AuthAndLeases(a, l) => f.auth.enc(a) + f.leases.enc(l)
  }

  /** They fit, and no trailer decodes from no bytes. */
  predicate TrailersFit<A, M, T, L>(f: Format<A, M, T, L>, ts: Trailers<T, L>) {
    && f.auth.dec([]).Eof? && f.leases.dec([]).Eof?
    && (!ts.NoTrailer? ==> f.auth.fits(ts.auth)) && (ts.AuthAndLeases? ==> f.leases.fits(ts.leases))
  }

  predicate Known<T, L>(ts: Trailers<T, L>) {
    && (!ts.NoTrailer? ==> ts.auth.magic == TRAILER_MAGIC)
    && (ts.AuthAndLeases? ==> ts.leases.magic == LEASE_TRAILER_MAGIC)
  }

  function AuthOf<T, L>(ts: Trailers<T, L>): Option<T> { if ts.NoTrailer? then None else ts.auth.tables }

  function LeasesOf<T, L>(ts: Trailers<T, L>): Option<L> { if ts.AuthAndLeases? then ts.leases.tables else None }

  lemma TrailersDecode<A(!new), M(!new), T(!new), L(!new)>(f: Format<A, M, T, L>, ts: Trailers<T, L>)
    requires LawfulFormat(f) && TrailersFit(f, ts)
    ensures DecTrailers(f, TrailersBytes(f, ts)) == if Known(ts) then Some((AuthOf(ts), LeasesOf(ts))) else None
  {
    match ts
    case NoTrailer =>
    case AuthOnly(a) =>
      assert Decodes(f.auth, a, []) && f.auth.enc(a) + [] == f.auth.enc(a);
    case AuthAndLeases(a, l) =>
      assert Decodes(f.auth, a, f.leases.enc(l));
      assert Decodes(f.leases, l, []) && f.leases.enc(l) + [] == f.leases.enc(l);
  }

  // ---------- Cut off ----------

  lemma {:induction false} PairsCut(pair: Codec<Pair>, t: Table, n: nat)
    requires Lawful(pair) && n < |PairsBytes(pair, t)| && forall i :: 0 <= i < |t| ==> pair.fits(t[i])
    ensures !DecPairs(pair, |t|, PairsBytes(pair, t)[..n]).Got?
  {
    var first, more := pair.enc(t[0]), PairsBytes(pair, t[1..]);
    if n < |first| {
      assert (first + more)[..n] == first[..n];
      assert NeedsAll(pair, t[0], n);
    } else {
      assert (first + more)[..n] == first + more[..n - |first|];
      assert Decodes(pair, t[0], more[..n - |first|]);
      PairsCut(pair, t[1..], n - |first|);
    }
  }

  lemma TableCut<A(!new), M(!new), T(!new), L(!new)>(f: Format<A, M, T, L>, t: Table, n: nat)
    requires LawfulFormat(f) && TableFits(f, t) && n < |TableBytes(f, t)|
    ensures !DecTable(f, TableBytes(f, t)[..n]).Got?
  {
    var count, pairs := f.count.enc(|t|), PairsBytes(f.pair, t);
    if n < |count| {
      assert (count + pairs)[..n] == count[..n];
      assert NeedsAll(f.count, |t|, n);
    } else {
      assert (count + pairs)[..n] == count + pairs[..n - |count|];
      assert Decodes(f.count, |t|, pairs[..n - |count|]);
      PairsCut(f.pair, t, n - |count|);
    }
  }

  lemma {:induction false} TablesCut<A(!new), M(!new), T(!new), L(!new)>(f: Format<A, M, T, L>, ts: seq<Table>, n: nat)
    requires LawfulFormat(f) && AllFit(f, ts) && n < |TablesBytes(f, ts)|
    ensures !DecTables(f, |ts|, TablesBytes(f, ts)[..n]).Got?
  {
    var first, more := TableBytes(f, ts[0]), TablesBytes(f, ts[1..]);
    if n < |first| {
      assert (first + more)[..n] == first[..n];
      assert TableFits(f, ts[0]);
      TableCut(f, ts[0], n);
    } else {
      assert (first + more)[..n] == first + more[..n - |first|];
      assert TableFits(f, ts[0]);
      TableRoundTrip(f, ts[0], more[..n - |first|]);
      TablesCut(f, ts[1..], n - |first|);
    }
  }

  /** A body cut off anywhere before its tables end does not decode. */
  lemma PayloadCut<A(!new), M(!new), T(!new), L(!new)>(f: Format<A, M, T, L>, src: Source<A, M, T, L>, n: nat)
    requires LawfulFormat(f) && Fits(f, src) && |src.tables| == TABLES && n < |PayloadBytes(f, src)|
    ensures DecBody(f, BodyBytes(f, src)[..n]) == None
  {
    var applied, membership := f.applied.enc(src.applied), f.membership.enc(src.membership);
    var tables := TablesBytes(f, src.tables);
    var bs, rest := BodyBytes(f, src)[..n], membership + tables;
    assert bs == (applied + rest)[..n];
    if n < |applied| {
      assert bs == applied[..n];
      assert NeedsAll(f.applied, src.applied, n);
    } else {
      var m := n - |applied|;
      assert bs == applied + rest[..m];
      assert Decodes(f.applied, src.applied, rest[..m]);
      if m < |membership| {
        assert rest[..m] == membership[..m];
        assert NeedsAll(f.membership, src.membership, m);
      } else {
        assert rest[..m] == membership + tables[..m - |membership|];
        assert Decodes(f.membership, src.membership, tables[..m - |membership|]);
        TablesCut(f, src.tables, m - |membership|);
      }
    }
  }

  // ---------- The operations ----------

  datatype Op<T, L> = Clear(table: nat) | Put(table: nat, key: Key, value: Bytes) | Auth(auth: T) | Leases(leases: L)

  function Puts<T, L>(table: nat, t: Table): seq<Op<T, L>> {
    seq(|t|, i requires 0 <= i < |t| => Put(table, t[i].0, t[i].1))
  }

  /** The puts of the first `n` tables. */
  function AllPuts<T, L>(ts: seq<Table>, n: nat): seq<Op<T, L>>
    requires n <= |ts|
  {
    if n == 0 then [] else AllPuts(ts, n - 1) + Puts(n - 1, ts[n - 1])
  }

  function Clears<T, L>(): seq<Op<T, L>> { [Clear(0), Clear(1), Clear(2)] }

  function Tail<A, M, T, L>(f: Format<A, M, T, L>, b: Body<A, M, T, L>): seq<Op<T, L>> {
    [Put(META, RAFT_APPLIED, f.applied.enc(b.applied)), Put(META, RAFT_MEMBERSHIP, f.membership.enc(b.membership))]
    + (if b.auth.Some? then [Auth(b.auth.value)] else [])
    + (if b.leases.Some? then [Leases(b.leases.value)] else [])
  }

  function InstallOps<A, M, T, L>(f: Format<A, M, T, L>, b: Body<A, M, T, L>): seq<Op<T, L>> {
    Clears() + AllPuts(b.tables, |b.tables|) + Tail(f, b)
  }

  /** One table's count and records, each sent as it is read. */
  method StreamTable<A, M, T, L>(f: Format<A, M, T, L>, k: nat, bs: Bytes, given: seq<Op<T, L>>)
    returns (out: seq<Op<T, L>>, rest: Option<Bytes>)
    ensures rest.Some? <==> DecTable(f, bs).Got?
    ensures rest.Some? ==> rest.value == DecTable(f, bs).rest && out == given + Puts(k, DecTable(f, bs).value)
  {
    out := given;
    var count := f.count.dec(bs);
    if !count.Got? { return out, None; }
    var n, cur, i := count.value, count.rest, 0;
    ghost var done: Table := [];
    NothingBefore(DecPairs(f.pair, n, cur));
    while i < n
      invariant i <= n && |done| == i && out == given + Puts(k, done)
      invariant DecPairs(f.pair, n, count.rest) == Before(done, DecPairs(f.pair, n - i, cur))
    {
      var p := f.pair.dec(cur);
      if !p.Got? { return out, None; }
      out := out + [Put(k, p.value.0, p.value.1)];
      Further(done, p.value, DecPairs(f.pair, n - i - 1, p.rest));
      done, cur, i := done + [p.value], p.rest, i + 1;
    }
    assert done + [] == done;
    rest := Some(cur);
  }

  lemma NothingBefore<X>(d: Dec<seq<X>>)
    ensures Before([], d) == d
  {
    if d.Got? { assert [] + d.value == d.value; }
  }

  lemma Further<X>(done: seq<X>, x: X, d: Dec<seq<X>>)
    ensures Before(done, Before([x], d)) == Before(done + [x], d)
  {
    if d.Got? { assert done + ([x] + d.value) == (done + [x]) + d.value; }
  }

  method StreamTables<A, M, T, L>(f: Format<A, M, T, L>, bs: Bytes, given: seq<Op<T, L>>)
    returns (out: seq<Op<T, L>>, rest: Option<Bytes>)
    ensures rest.Some? <==> DecTables(f, TABLES, bs).Got?
    ensures rest.Some? ==> rest.value == DecTables(f, TABLES, bs).rest
    ensures rest.Some? ==> out == given + AllPuts(DecTables(f, TABLES, bs).value, |DecTables(f, TABLES, bs).value|)
  {
    out := given;
    var cur, k := bs, 0;
    ghost var done: seq<Table> := [];
    NothingBefore(DecTables(f, TABLES, bs));
    while k < TABLES
      invariant k <= TABLES && |done| == k && out == given + AllPuts(done, k)
      invariant DecTables(f, TABLES, bs) == Before(done, DecTables(f, TABLES - k, cur))
    {
      ghost var d := DecTable(f, cur);
      var next;
      out, next := StreamTable(f, k, cur, out);
      if next.None? { return out, None; }
      Further(done, d.value, DecTables(f, TABLES - k - 1, next.value));
      OneTable(given, done, d.value);
      done, cur, k := done + [d.value], next.value, k + 1;
    }
    assert done + [] == done;
    rest := Some(cur);
  }

  lemma {:induction false} SamePuts<T, L>(done: seq<Table>, t: Table, n: nat)
    requires n <= |done|
    ensures AllPuts<T, L>(done + [t], n) == AllPuts(done, n)
  {
    if n > 0 { SamePuts<T, L>(done, t, n - 1); }
  }

  lemma OneTable<T, L>(given: seq<Op<T, L>>, done: seq<Table>, t: Table)
    ensures (given + AllPuts(done, |done|)) + Puts(|done|, t) == given + AllPuts(done + [t], |done| + 1)
  {
    SamePuts<T, L>(done, t, |done|);
    Assoc(given, AllPuts(done, |done|), Puts(|done|, t));
  }

  /** The streaming decoder sends exactly the operations of the body it decodes, and fails exactly where
      there is none. */
  method StreamBody<A, M, T, L>(f: Format<A, M, T, L>, bs: Bytes) returns (ops: seq<Op<T, L>>, header: Option<(A, M)>)
    ensures header.Some? <==> DecBody(f, bs).Some?
    ensures header.Some? ==> ops == InstallOps(f, DecBody(f, bs).value)
    ensures header.Some? ==> header.value == (DecBody(f, bs).value.applied, DecBody(f, bs).value.membership)
  {
    ops := [];
    var applied := f.applied.dec(bs);
    if !applied.Got? { return ops, None; }
    var membership := f.membership.dec(applied.rest);
    if !membership.Got? { return ops, None; }
    ops := Clears();
    var rest;
    ops, rest := StreamTables(f, membership.rest, ops);
    if rest.None? { return ops, None; }
    var tail: seq<Op<T, L>> := [
      Put(META, RAFT_APPLIED, f.applied.enc(applied.value)),
      Put(META, RAFT_MEMBERSHIP, f.membership.enc(membership.value))];
    var auth := f.auth.dec(rest.value);
    if auth.Bad? { return ops, None; }
    if auth.Got? {
      if auth.value.magic != TRAILER_MAGIC { return ops, None; }
      if auth.value.tables.Some? { tail := tail + [Auth(auth.value.tables.value)]; }
      var leases := f.leases.dec(auth.rest);
      if leases.Bad? { return ops, None; }
      if leases.Got? {
        if leases.value.magic != LEASE_TRAILER_MAGIC { return ops, None; }
        if leases.value.tables.Some? { tail := tail + [Leases(leases.value.tables.value)]; }
      }
    }
    header := Some((applied.value, membership.value));
    assert tail == Tail(f, DecBody(f, bs).value);
    ops := ops + tail;
  }

  // ---------- What the operations do ----------

  datatype Engine<T, L> = Engine(tables: seq<map<Key, Bytes>>, auth: Option<T>, leases: Option<L>)

  /** Where a clear stops: 64 bytes of 0xFF. */
  function ClearEnd(): Key { seq(64, _ => 255) }

  /** What a clear leaves behind. */
  function Leftover(m: map<Key, Bytes>): map<Key, Bytes> { map k | k in m && !Lt(k, ClearEnd()) :: m[k] }

  function Apply<T, L>(e: Engine<T, L>, op: Op<T, L>): Engine<T, L> {
    match op
    case Clear(t) => if t < |e.tables| then e.(tables := e.tables[t := Leftover(e.tables[t])]) else e
    case Put(t, k, v) => if t < |e.tables| then e.(tables := e.tables[t := e.tables[t][k := v]]) else e
    case Auth(a) => e.(auth := Some(a))
    case Leases(l) => e.(leases := Some(l))
  }

  function Run<T, L>(e: Engine<T, L>, ops: seq<Op<T, L>>): Engine<T, L>
    decreases |ops|
  {
    if ops == [] then e else Run(Apply(e, ops[0]), ops[1..])
  }

  lemma {:induction false} RunJoin<T, L>(e: Engine<T, L>, a: seq<Op<T, L>>, b: seq<Op<T, L>>)
    ensures Run(e, a + b) == Run(Run(e, a), b)
    decreases |a|
  {
    if a == [] {
      assert a + b == b;
    } else {
      RunJoin(Apply(e, a[0]), a[1..], b);
      assert (a + b)[1..] == a[1..] + b;
    }
  }

  function AsMap(t: Table): map<Key, Bytes> {
    if t == [] then map[] else map[t[0].0 := t[0].1] + AsMap(t[1..])
  }

  lemma {:induction false} RunPuts<T, L>(e: Engine<T, L>, k: nat, t: Table)
    requires k < |e.tables|
    ensures Run(e, Puts(k, t)) == e.(tables := e.tables[k := e.tables[k] + AsMap(t)])
    decreases |t|
  {
    var m := e.tables[k];
    if t == [] {
      assert Puts<T, L>(k, t) == [] && m + AsMap(t) == m;
      assert e.tables[k := m] == e.tables;
    } else {
      assert Puts<T, L>(k, t)[1..] == Puts(k, t[1..]);
      RunPuts(Apply(e, Put(k, t[0].0, t[0].1)), k, t[1..]);
      assert m[t[0].0 := t[0].1] + AsMap(t[1..]) == m + AsMap(t);
    }
  }

  /** The metadata with the applied id and membership of the header. */
  function Stamped<A, M, T, L>(f: Format<A, M, T, L>, meta: map<Key, Bytes>, src: Source<A, M, T, L>): map<Key, Bytes> {
    meta[RAFT_APPLIED := f.applied.enc(src.applied)][RAFT_MEMBERSHIP := f.membership.enc(src.membership)]
  }

  /** The three tables after an install, from any target: the source's records over what the clears left,
      and the applied id and membership in the metadata. */
  function Installed<A, M, T, L>(f: Format<A, M, T, L>, e: Engine<T, L>, src: Source<A, M, T, L>): seq<map<Key, Bytes>>
    requires |e.tables| == TABLES && |src.tables| == TABLES
  {
    [ Leftover(e.tables[0]) + AsMap(src.tables[0]),
      Leftover(e.tables[1]) + AsMap(src.tables[1]),
      Stamped(f, Leftover(e.tables[2]) + AsMap(src.tables[2]), src) ]
  }

  lemma ClearsDo<T, L>(e: Engine<T, L>)
    requires |e.tables| == TABLES
    ensures Run(e, Clears()) == e.(tables := [Leftover(e.tables[0]), Leftover(e.tables[1]), Leftover(e.tables[2])])
  {
    var one := Apply(e, Clear(0));
    var two := Apply(one, Clear(1));
    var three := Apply(two, Clear(2));
    var ops: seq<Op<T, L>> := Clears();
    assert ops[1..] == [Clear(1), Clear(2)] && ops[1..][1..] == [Clear(2)] && ops[1..][1..][1..] == [];
    assert Run(two, ops[1..][1..]) == three;
    assert Run(one, ops[1..]) == three;
    assert three.tables == [Leftover(e.tables[0]), Leftover(e.tables[1]), Leftover(e.tables[2])];
  }

  /** The first `n` tables have been put over what was there. */
  ghost predicate PutOver<T, L>(e: Engine<T, L>, ts: seq<Table>, n: nat, r: Engine<T, L>)
    requires n <= |ts| <= |e.tables|
  {
    && |r.tables| == |e.tables| && r.auth == e.auth && r.leases == e.leases
    && forall i :: 0 <= i < |e.tables| ==> r.tables[i] == if i < n then e.tables[i] + AsMap(ts[i]) else e.tables[i]
  }

  lemma OnePutMore<T, L>(e: Engine<T, L>, ts: seq<Table>, n: nat, r: Engine<T, L>, r': Engine<T, L>)
    requires n < |ts| <= |e.tables| && PutOver(e, ts, n, r)
    requires r' == r.(tables := r.tables[n := r.tables[n] + AsMap(ts[n])])
    ensures PutOver(e, ts, n + 1, r')
  {
  }

  lemma {:induction false} PutsDo<T, L>(e: Engine<T, L>, ts: seq<Table>, n: nat)
    requires n <= |ts| <= |e.tables|
    ensures PutOver(e, ts, n, Run(e, AllPuts(ts, n)))
  {
    if n > 0 {
      PutsDo(e, ts, n - 1);
      var ops: seq<Op<T, L>> := AllPuts(ts, n - 1);
      RunJoin(e, ops, Puts(n - 1, ts[n - 1]));
      RunPuts(Run(e, ops), n - 1, ts[n - 1]);
      OnePutMore(e, ts, n - 1, Run(e, ops), Run(e, AllPuts(ts, n)));
    }
  }

  lemma TailDoes<A, M, T, L>(f: Format<A, M, T, L>, e: Engine<T, L>, src: Source<A, M, T, L>)
    requires |e.tables| == TABLES
    ensures Run(e, Tail(f, WholeBody(src))) == Engine(
      e.tables[META := Stamped(f, e.tables[META], src)], Some(src.auth), Some(src.leases))
  {
    var a: Op<T, L> := Put(META, RAFT_APPLIED, f.applied.enc(src.applied));
    var b: Op<T, L> := Put(META, RAFT_MEMBERSHIP, f.membership.enc(src.membership));
    var t0: seq<Op<T, L>> := [a, b, Auth(src.auth), Leases(src.leases)];
    assert Tail(f, WholeBody(src)) == t0;
    var t1, t2, t3 := t0[1..], t0[2..], t0[3..];
    assert t1[1..] == t2 && t2[1..] == t3 && t3[1..] == [];
    var e1 := Apply(e, a);
    var e2 := Apply(e1, b);
    var e3 := Apply(e2, Auth(src.auth));
    assert Run(e3, t3) == Apply(e3, Leases(src.leases));
    assert Run(e2, t2) == Run(e3, t3);
    assert Run(e1, t1) == Run(e2, t2);
    assert e2.tables == e.tables[META := Stamped(f, e.tables[META], src)];
  }

  /** Installing a written body, on any target. */
  lemma InstallDoes<A(!new), M(!new), T(!new), L(!new)>(f: Format<A, M, T, L>, e: Engine<T, L>, src: Source<A, M, T, L>)
    requires LawfulFormat(f) && Fits(f, src) && |e.tables| == TABLES && |src.tables| == TABLES
    ensures DecBody(f, BodyBytes(f, src)).Some?
    ensures Run(e, InstallOps(f, DecBody(f, BodyBytes(f, src)).value))
         == Engine(Installed(f, e, src), Some(src.auth), Some(src.leases))
  {
    BodyRoundTrip(f, src);
    var ops: seq<Op<T, L>> := Clears() + AllPuts(src.tables, TABLES);
    RunJoin(e, ops, Tail(f, WholeBody(src)));
    FillDoes(e, src.tables);
    TailDoes(f, Run(e, ops), src);
  }

  /** The end of an install, with whatever the body has. */
  lemma AnyTailDoes<A, M, T, L>(f: Format<A, M, T, L>, e: Engine<T, L>, src: Source<A, M, T, L>, auth: Option<T>, leases: Option<L>)
    requires |e.tables| == TABLES
    ensures Run(e, Tail(f, Body(src.applied, src.membership, src.tables, auth, leases))) == Engine(
      e.tables[META := Stamped(f, e.tables[META], src)],
      if auth.Some? then auth else e.auth, if leases.Some? then leases else e.leases)
  {
    var a: Op<T, L> := Put(META, RAFT_APPLIED, f.applied.enc(src.applied));
    var b: Op<T, L> := Put(META, RAFT_MEMBERSHIP, f.membership.enc(src.membership));
    var c: seq<Op<T, L>> := if auth.Some? then [Auth(auth.value)] else [];
    var d: seq<Op<T, L>> := if leases.Some? then [Leases(leases.value)] else [];
    RunJoin(e, [a, b] + c, d);
    RunJoin(e, [a, b], c);
    var e1 := Apply(e, a);
    var e2 := Apply(e1, b);
    assert [a, b][1..] == [b] && [b][1..] == [];
    assert Run(e1, [b]) == e2;
    assert e2.tables == e.tables[META := Stamped(f, e.tables[META], src)];
    RunOne(e2, c);
    RunOne(Run(e2, c), d);
  }

  lemma RunOne<T, L>(e: Engine<T, L>, ops: seq<Op<T, L>>)
    requires |ops| <= 1
    ensures Run(e, ops) == if ops == [] then e else Apply(e, ops[0])
  {
    if ops != [] { assert ops[1..] == []; }
  }

  /** A body with any trailers, as older members write them too: refused exactly if a trailer's magic is not
      known; else the tables are the source's over what the clears left, and the auth and lease tables are
      replaced by those the body has and stay as they are where it has none. */
  lemma AnyBodyInstalls<A(!new), M(!new), T(!new), L(!new)>(
      f: Format<A, M, T, L>, e: Engine<T, L>, src: Source<A, M, T, L>, ts: Trailers<T, L>)
    requires LawfulFormat(f) && Fits(f, src) && TrailersFit(f, ts) && |e.tables| == TABLES && |src.tables| == TABLES
    ensures var body := DecBody(f, PayloadBytes(f, src) + TrailersBytes(f, ts));
            && (body.Some? <==> Known(ts))
            && (body.Some? ==> Run(e, InstallOps(f, body.value)) == Engine(
                  Installed(f, e, src),
                  if AuthOf(ts).Some? then AuthOf(ts) else e.auth, if LeasesOf(ts).Some? then LeasesOf(ts) else e.leases))
  {
    PayloadThen(f, src, TrailersBytes(f, ts));
    TrailersDecode(f, ts);
    if Known(ts) {
      var ops: seq<Op<T, L>> := Clears() + AllPuts(src.tables, TABLES);
      var b := Body(src.applied, src.membership, src.tables, AuthOf(ts), LeasesOf(ts));
      RunJoin(e, ops, Tail(f, b));
      FillDoes(e, src.tables);
      AnyTailDoes(f, Run(e, ops), src, AuthOf(ts), LeasesOf(ts));
    }
  }

  function Filled(tables: seq<map<Key, Bytes>>, ts: seq<Table>): seq<map<Key, Bytes>>
    requires |tables| == TABLES && |ts| == TABLES
  {
    [Leftover(tables[0]) + AsMap(ts[0]), Leftover(tables[1]) + AsMap(ts[1]), Leftover(tables[2]) + AsMap(ts[2])]
  }

  lemma FillDoes<T, L>(e: Engine<T, L>, ts: seq<Table>)
    requires |e.tables| == TABLES && |ts| == TABLES
    ensures Run(e, Clears() + AllPuts(ts, TABLES)) == e.(tables := Filled(e.tables, ts))
  {
    RunJoin(e, Clears(), AllPuts(ts, TABLES));
    ClearsDo(e);
    var cleared := Run(e, Clears());
    PutsDo(cleared, ts, TABLES);
    var r := Run(cleared, AllPuts(ts, TABLES));
    assert r.tables == Filled(e.tables, ts);
  }

  /** A table with the source's records over what a clear left is the source's exactly when the source has
      every key the target held at or above 64 bytes of 0xFF. */
  lemma FilledExactly(target: map<Key, Bytes>, source: map<Key, Bytes>)
    ensures Leftover(target) + source == source <==> NoneStays(target, source)
  {
    if Leftover(target) + source == source {
      forall k | k in target && Le(ClearEnd(), k) ensures k in source {
        assert k in (Leftover(target) + source).Keys;
      }
    }
  }

  /** Every key the clear does not reach is one the source has. */
  ghost predicate NoneStays(target: map<Key, Bytes>, source: map<Key, Bytes>) {
    forall k <- target :: Le(ClearEnd(), k) ==> k in source
  }

  lemma MetadataKeysAreCleared()
    ensures !Le(ClearEnd(), RAFT_APPLIED) && !Le(ClearEnd(), RAFT_MEMBERSHIP)
  {
  }

  lemma StampedExactly<A, M, T, L>(
      f: Format<A, M, T, L>, target: map<Key, Bytes>, source: map<Key, Bytes>, src: Source<A, M, T, L>)
    ensures Stamped(f, Leftover(target) + source, src) == Stamped(f, source, src) <==> NoneStays(target, source)
  {
    FilledExactly(target, source);
    MetadataKeysAreCleared();
    if Stamped(f, Leftover(target) + source, src) == Stamped(f, source, src) {
      forall k | k in target && Le(ClearEnd(), k) ensures k in source {
        assert k in Stamped(f, Leftover(target) + source, src).Keys;
      }
    }
  }

  /** The source's three tables, with the applied id and membership of the header in the metadata. */
  function Sourced<A, M, T, L>(f: Format<A, M, T, L>, src: Source<A, M, T, L>): seq<map<Key, Bytes>>
    requires |src.tables| == TABLES
  {
    [AsMap(src.tables[0]), AsMap(src.tables[1]), Stamped(f, AsMap(src.tables[2]), src)]
  }

  /** Installing a written body makes the target's tables the source's, whatever the target held, exactly
      when the source has every key the target held at or above 64 bytes of 0xFF, table by table. */
  lemma InstalledExactly<A(!new), M(!new), T(!new), L(!new)>(
      f: Format<A, M, T, L>, e: Engine<T, L>, src: Source<A, M, T, L>)
    requires LawfulFormat(f) && Fits(f, src) && |e.tables| == TABLES && |src.tables| == TABLES
    ensures DecBody(f, BodyBytes(f, src)).Some?
    ensures Run(e, InstallOps(f, DecBody(f, BodyBytes(f, src)).value)).tables == Sourced(f, src) <==>
      forall i :: 0 <= i < TABLES ==> NoneStays(e.tables[i], AsMap(src.tables[i]))
  {
    InstallDoes(f, e, src);
    FilledExactly(e.tables[0], AsMap(src.tables[0]));
    FilledExactly(e.tables[1], AsMap(src.tables[1]));
    StampedExactly(f, e.tables[2], AsMap(src.tables[2]), src);
    TablesMatch(f, e, src);
  }

  lemma TablesMatch<A, M, T, L>(f: Format<A, M, T, L>, e: Engine<T, L>, src: Source<A, M, T, L>)
    requires |e.tables| == TABLES && |src.tables| == TABLES
    ensures Installed(f, e, src) == Sourced(f, src) <==>
      && Leftover(e.tables[0]) + AsMap(src.tables[0]) == AsMap(src.tables[0])
      && Leftover(e.tables[1]) + AsMap(src.tables[1]) == AsMap(src.tables[1])
      && Stamped(f, Leftover(e.tables[2]) + AsMap(src.tables[2]), src) == Stamped(f, AsMap(src.tables[2]), src)
  {
    var a, b := Installed(f, e, src), Sourced(f, src);
    assert a == b ==> a[0] == b[0] && a[1] == b[1] && a[2] == b[2];
  }

  /** Otherwise such a key is still there after the install. */
  lemma LongKeyStays<A(!new), M(!new), T(!new), L(!new)>(
      f: Format<A, M, T, L>, e: Engine<T, L>, src: Source<A, M, T, L>, i: nat, k: Key)
    requires LawfulFormat(f) && Fits(f, src) && |e.tables| == TABLES && |src.tables| == TABLES
    requires i < TABLES && k in e.tables[i] && Le(ClearEnd(), k) && k !in AsMap(src.tables[i])
    ensures DecBody(f, BodyBytes(f, src)).Some?
    ensures var r := Run(e, InstallOps(f, DecBody(f, BodyBytes(f, src)).value));
            |r.tables| == TABLES && k in r.tables[i] && r.tables[i][k] == e.tables[i][k]
  {
    InstallDoes(f, e, src);
    MetadataKeysAreCleared();
  }

  /** A stream that fails ends in an error, and the commit it feeds is abandoned: all of a body or nothing. */
  method Install<A, M, T, L>(f: Format<A, M, T, L>, e: Engine<T, L>, bs: Bytes) returns (e': Engine<T, L>, ok: bool)
    ensures ok <==> DecBody(f, bs).Some?
    ensures e' == if ok then Run(e, InstallOps(f, DecBody(f, bs).value)) else e
  {
    var ops, header := StreamBody(f, bs);
    ok := header.Some?;
    e' := e;
    if ok {
      var i := 0;
      while i < |ops|
        invariant i <= |ops| && Run(e', ops[i..]) == Run(e, ops)
      {
        assert ops[i..][1..] == ops[i + 1..];
        e', i := Apply(e', ops[i]), i + 1;
      }
    }
  }
}
