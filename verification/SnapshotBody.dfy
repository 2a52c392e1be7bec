/** A snapshot's body: written a chunk at a time with each table's count patched
    in afterwards, and decoded a record at a time into the operations that
    install it. The byte encodings of single values are arbitrary lawful codecs. */
module SnapshotBody {

  import opened Common
  import opened Keys

  type Bytes = seq<Byte>
  type Pair = (Key, Bytes)
  type Table = seq<Pair>

  /** Decoding one value: the value and what follows it, the end of input too soon, or an error. */
  datatype Dec<T> = Got(value: T, rest: Bytes) | Eof | Bad

  /** An encoding of the values that fit it. */
  datatype Codec<!T> = Codec(enc: T -> Bytes, dec: Bytes -> Dec<T>, fits: T -> bool)

  /** A value that fits decodes from its own bytes whatever follows them, and not from fewer. */
  ghost predicate Lawful<T(!new)>(c: Codec<T>) {
    (forall x: T, rest: Bytes :: Decodes(c, x, rest)) && (forall x: T, n: nat :: NeedsAll(c, x, n))
  }

  ghost predicate Decodes<T(!new)>(c: Codec<T>, x: T, rest: Bytes) {
    c.fits(x) ==> c.dec(c.enc(x) + rest) == Got(x, rest)
  }

  ghost predicate NeedsAll<T(!new)>(c: Codec<T>, x: T, n: nat) {
    c.fits(x) && n < |c.enc(x)| ==> c.dec(c.enc(x)[..n]) == Eof
  }

  // ---------- The encodings of counts and records ----------

  /** `n` as `k` bytes, least significant first. */
  function ToLe(n: nat, k: nat): (b: Bytes)
    ensures |b| == k
  {
    if k == 0 then [] else [n % 256] + ToLe(n / 256, k - 1)
  }

  function FromLe(b: Bytes): nat { if b == [] then 0 else b[0] + 256 * FromLe(b[1..]) }

  lemma {:induction false} LeRoundTrip(n: nat, k: nat)
    requires n < Pow256(k)
    ensures FromLe(ToLe(n, k)) == n
  {
    if k > 0 { LeRoundTrip(n / 256, k - 1); }
  }

  /** Byte `i` is the `i`-th digit to the base of 256. */
  lemma {:induction false} LeDigit(n: nat, k: nat, i: nat)
    requires i < k
    ensures IsDigit(n, i, ToLe(n, k)[i])
  {
    if i == 0 {
      FirstDigit(n);
    } else {
      LeDigit(n / 256, k - 1, i - 1);
      NextDigit(n, i - 1, ToLe(n, k)[i]);
    }
  }

  /** A 64-bit count. */
  function U64(): Codec<nat> {
    Codec((n: nat) => ToLe(n, 8),
          (bs: Bytes) => if |bs| < 8 then Eof else Got(FromLe(bs[..8]), bs[8..]),
          (n: nat) => n < Pow256(8))
  }

  lemma U64Lawful()
    ensures Lawful(U64()) && U64().fits(0) && forall n: nat :: |U64().enc(n)| == 8
  {
    var c := U64();
    forall n: nat, rest: Bytes ensures Decodes(c, n, rest) {
      if c.fits(n) {
        LeRoundTrip(n, 8);
        assert (c.enc(n) + rest)[..8] == c.enc(n) && (c.enc(n) + rest)[8..] == rest;
      }
    }
    forall n: nat, k: nat ensures NeedsAll(c, n, k) {
    }
    assert Pow256(8) > 0;
  }

  /** A byte string: its length, then the bytes. */
  function Blob(): Codec<Bytes> {
    Codec((b: Bytes) => ToLe(|b|, 8) + b,
          (bs: Bytes) =>
            if |bs| < 8 then Eof
            else if |bs| - 8 < FromLe(bs[..8]) then Eof
            else Got(bs[8..8 + FromLe(bs[..8])], bs[8 + FromLe(bs[..8])..]),
          (b: Bytes) => |b| < Pow256(8))
  }

  lemma BlobLawful()
    ensures Lawful(Blob())
  {
    var c := Blob();
    forall b: Bytes, rest: Bytes ensures Decodes(c, b, rest) {
      if c.fits(b) {
        LeRoundTrip(|b|, 8);
        var bs := c.enc(b) + rest;
        assert bs[..8] == ToLe(|b|, 8);
        assert bs[8..8 + |b|] == b && bs[8 + |b|..] == rest;
      }
    }
    forall b: Bytes, n: nat ensures NeedsAll(c, b, n) {
      if c.fits(b) && 8 <= n < |c.enc(b)| {
        LeRoundTrip(|b|, 8);
        assert c.enc(b)[..n][..8] == ToLe(|b|, 8);
      }
    }
  }

  /** One value after another. */
  function Both<A, B>(a: Codec<A>, b: Codec<B>): Codec<(A, B)> {
    Codec((x: (A, B)) => a.enc(x.0) + b.enc(x.1),
          (bs: Bytes) => DecBoth(a, b, bs),
          (x: (A, B)) => a.fits(x.0) && b.fits(x.1))
  }

  function DecBoth<A, B>(a: Codec<A>, b: Codec<B>, bs: Bytes): Dec<(A, B)> {
    match a.dec(bs)
    case Eof => Eof
    case Bad => Bad
    case Got(x, rest) =>
      match b.dec(rest)
      case Eof => Eof
      case Bad => Bad
      case Got(y, rest') => Got((x, y), rest')
  }

  lemma BothLawful<A(!new), B(!new)>(a: Codec<A>, b: Codec<B>)
    requires Lawful(a) && Lawful(b)
    ensures Lawful(Both(a, b))
  {
    var c := Both(a, b);
    forall x: (A, B), rest: Bytes ensures Decodes(c, x, rest) {
      Assoc(a.enc(x.0), b.enc(x.1), rest);
      assert Decodes(a, x.0, b.enc(x.1) + rest) && Decodes(b, x.1, rest);
    }
    forall x: (A, B), n: nat ensures NeedsAll(c, x, n) {
      if c.fits(x) && n < |c.enc(x)| {
        var first, second := a.enc(x.0), b.enc(x.1);
        if n < |first| {
          assert (first + second)[..n] == first[..n];
          assert NeedsAll(a, x.0, n);
        } else {
          assert (first + second)[..n] == first + second[..n - |first|];
          assert Decodes(a, x.0, second[..n - |first|]) && NeedsAll(b, x.1, n - |first|);
        }
      }
    }
  }

  /** A record: two byte strings. */
  function Record(): Codec<Pair> { Both(Blob(), Blob()) }

  // ---------- The format ----------

  /** A trailer after the tables: its magic and, if it has them, its tables. */
  datatype Trailer<T> = Trailer(magic: nat, tables: Option<T>)

  datatype Format<!A, !M, !T, !L> = Format(
    applied: Codec<A>, membership: Codec<M>, count: Codec<nat>, pair: Codec<Pair>,
    auth: Codec<Trailer<T>>, leases: Codec<Trailer<L>>)

  /** Counts that fit take eight bytes. */
  ghost predicate LawfulFormat<A(!new), M(!new), T(!new), L(!new)>(f: Format<A, M, T, L>) {
    && Lawful(f.applied) && Lawful(f.membership) && Lawful(f.count) && Lawful(f.pair)
    && Lawful(f.auth) && Lawful(f.leases)
    && f.count.fits(0) && forall n: nat :: f.count.fits(n) ==> |f.count.enc(n)| == 8
  }

  /** With 64-bit counts and records of two byte strings, lawful encodings of the rest are enough. */
  lemma FormatIsLawful<A(!new), M(!new), T(!new), L(!new)>(
      applied: Codec<A>, membership: Codec<M>, auth: Codec<Trailer<T>>, leases: Codec<Trailer<L>>)
    requires Lawful(applied) && Lawful(membership) && Lawful(auth) && Lawful(leases)
    ensures LawfulFormat(Format(applied, membership, U64(), Record(), auth, leases))
  {
    U64Lawful();
    BlobLawful();
    BothLawful(Blob(), Blob());
  }

  const BODY_CHUNK := 128
  const TRAILER_MAGIC := 1
  const LEASE_TRAILER_MAGIC := 2

  // ---------- The whole-value form ----------

  function PairsBytes(pair: Codec<Pair>, t: Table): Bytes {
    if t == [] then [] else pair.enc(t[0]) + PairsBytes(pair, t[1..])
  }

  function TableBytes<A, M, T, L>(f: Format<A, M, T, L>, t: Table): Bytes {
    f.count.enc(|t|) + PairsBytes(f.pair, t)
  }

  function TablesBytes<A, M, T, L>(f: Format<A, M, T, L>, ts: seq<Table>): Bytes {
    if ts == [] then [] else TableBytes(f, ts[0]) + TablesBytes(f, ts[1..])
  }

  /** One engine snapshot and what was read with it. */
  datatype Source<A, M, T, L> = Source(applied: A, membership: M, tables: seq<Table>, auth: T, leases: L)

  function PayloadBytes<A, M, T, L>(f: Format<A, M, T, L>, src: Source<A, M, T, L>): Bytes {
    f.applied.enc(src.applied) + (f.membership.enc(src.membership) + TablesBytes(f, src.tables))
  }

  function BodyBytes<A, M, T, L>(f: Format<A, M, T, L>, src: Source<A, M, T, L>): Bytes {
    PayloadBytes(f, src) + TrailerBytes(f, src.auth, src.leases)
  }

  function TrailerBytes<A, M, T, L>(f: Format<A, M, T, L>, auth: T, leases: L): Bytes {
    f.auth.enc(Trailer(TRAILER_MAGIC, Some(auth))) + f.leases.enc(Trailer(LEASE_TRAILER_MAGIC, Some(leases)))
  }

  /** What the format can hold: fewer than 2^64 records of a size that fits, and the rest likewise. */
  ghost predicate TableFits<A, M, T, L>(f: Format<A, M, T, L>, t: Table) {
    f.count.fits(|t|) && forall i :: 0 <= i < |t| ==> f.pair.fits(t[i])
  }

  ghost predicate AllFit<A, M, T, L>(f: Format<A, M, T, L>, ts: seq<Table>) {
    forall i :: 0 <= i < |ts| ==> TableFits(f, ts[i])
  }

  ghost predicate Fits<A, M, T, L>(f: Format<A, M, T, L>, src: Source<A, M, T, L>) {
    && f.applied.fits(src.applied) && f.membership.fits(src.membership) && AllFit(f, src.tables)
    && f.auth.fits(Trailer(TRAILER_MAGIC, Some(src.auth)))
    && f.leases.fits(Trailer(LEASE_TRAILER_MAGIC, Some(src.leases)))
  }

  lemma {:induction false} PairsJoin(pair: Codec<Pair>, a: Table, b: Table)
    ensures PairsBytes(pair, a + b) == PairsBytes(pair, a) + PairsBytes(pair, b)
  {
    if a == [] {
      assert a + b == b;
    } else {
      PairsJoin(pair, a[1..], b);
      assert (a + b)[1..] == a[1..] + b;
    }
  }

  // ---------- Writing ----------

  ghost predicate Sorted(t: Table) { forall i, j :: 0 <= i < j < |t| ==> Lt(t[i].0, t[j].0) }

  /** Where reading goes on after key `after`: the first record above it. */
  function FirstAfter(t: Table, after: Option<Key>, i: nat): (r: nat)
    requires i <= |t|
    ensures i <= r <= |t|
    decreases |t| - i
  {
    if i == |t| || after.None? || Lt(after.value, t[i].0) then i else FirstAfter(t, after, i + 1)
  }

  /** The engine's range read: at most `limit` records above `after`. */
  function Range(t: Table, after: Option<Key>, limit: nat): Table {
    var i := FirstAfter(t, after, 0);
    if |t| - i < limit then t[i..] else t[i..i + limit]
  }

  lemma {:induction false} ContinuesAt(t: Table, n: nat, i: nat)
    requires Sorted(t) && 0 < n <= |t| && i <= n
    ensures FirstAfter(t, Some(t[n - 1].0), i) == n
    decreases n - i
  {
    if i < n {
      ContinuesAt(t, n, i + 1);
      if i < n - 1 { Trichotomy(t[i].0, t[n - 1].0); } else { Trichotomy(t[i].0, t[i].0); }
    }
  }

  /** A seekable writer. */
  class Writer {
    var buf: Bytes
    var pos: nat

    ghost predicate Valid()
      reads this
    {
      pos <= |buf|
    }

    constructor ()
      ensures Valid() && buf == [] && pos == 0
    {
      buf, pos := [], 0;
    }

    method WriteAll(bs: Bytes)
      requires Valid()
      modifies this
      ensures Valid() && buf == Overwritten(old(buf), old(pos), bs) && pos == old(pos) + |bs|
    {
      buf := Overwritten(buf, pos, bs);
      pos := pos + |bs|;
    }

    /** A write at the end. */
    method Append(bs: Bytes)
      requires Valid() && pos == |buf|
      modifies this
      ensures Valid() && pos == |buf| && buf == old(buf) + bs
    {
      AtTheEnd(buf, bs);
      WriteAll(bs);
    }

    method Seek(to: nat)
      requires to <= |buf|
      modifies this`pos
      ensures Valid() && pos == to
    {
      pos := to;
    }
  }

  function Overwritten(buf: Bytes, pos: nat, bs: Bytes): (r: Bytes)
    requires pos <= |buf|
    ensures |r| >= pos + |bs|
  {
    buf[..pos] + bs + if pos + |bs| <= |buf| then buf[pos + |bs|..] else []
  }

  lemma Patched(pre: Bytes, a: Bytes, b: Bytes, post: Bytes)
    requires |a| == |b|
    ensures Overwritten(pre + (a + post), |pre|, b) == pre + (b + post)
  {
    var buf := pre + (a + post);
    assert buf[..|pre|] == pre;
    assert buf[|pre| + |b|..] == post;
  }

  lemma AtTheEnd(buf: Bytes, bs: Bytes)
    ensures Overwritten(buf, |buf|, bs) == buf + bs
  {
    assert buf[..|buf|] == buf;
  }

  /** The records of a table, a chunk at a time. */
  method WritePairs(pair: Codec<Pair>, w: Writer, t: Table) returns (n: nat)
    requires w.Valid() && w.pos == |w.buf| && Sorted(t)
    modifies w
    ensures w.Valid() && w.pos == |w.buf| && w.buf == old(w.buf) + PairsBytes(pair, t) && n == |t|
  {
    n := 0;
    var after: Option<Key> := None;
    var more := true;
    while more
      invariant w.Valid() && w.pos == |w.buf| && n <= |t| && (more ==> FirstAfter(t, after, 0) == n)
      invariant w.buf == old(w.buf) + PairsBytes(pair, t[..n]) && (!more ==> n == |t|)
      decreases more, |t| - n
    {
      var chunk := Range(t, after, BODY_CHUNK);
      assert chunk == t[n..n + |chunk|];
      WriteChunk(pair, w, chunk);
      PairsJoin(pair, t[..n], chunk);
      assert t[..n] + chunk == t[..n + |chunk|];
      Assoc(old(w.buf), PairsBytes(pair, t[..n]), PairsBytes(pair, chunk));
      n := n + |chunk|;
      if |chunk| == BODY_CHUNK {
        after := Some(chunk[|chunk| - 1].0);
        assert chunk[|chunk| - 1] == t[n - 1];
        ContinuesAt(t, n, 0);
      } else {
        more := false;
      }
    }
    assert t[..n] == t;
  }

  method WriteChunk(pair: Codec<Pair>, w: Writer, chunk: Table)
    requires w.Valid() && w.pos == |w.buf|
    modifies w
    ensures w.Valid() && w.pos == |w.buf| && w.buf == old(w.buf) + PairsBytes(pair, chunk)
  {
    var i := 0;
    while i < |chunk|
      invariant w.Valid() && w.pos == |w.buf| && i <= |chunk|
      invariant w.buf + PairsBytes(pair, chunk[i..]) == old(w.buf) + PairsBytes(pair, chunk)
    {
      ghost var before := w.buf;
      w.Append(pair.enc(chunk[i]));
      assert chunk[i..][1..] == chunk[i + 1..];
      Assoc(before, pair.enc(chunk[i]), PairsBytes(pair, chunk[i + 1..]));
      i := i + 1;
    }
  }

  /** A table: a count of zero, the records, then the real count over it. */
  method WriteTable<A(!new), M(!new), T(!new), L(!new)>(f: Format<A, M, T, L>, w: Writer, t: Table)
    requires w.Valid() && w.pos == |w.buf| && Sorted(t) && LawfulFormat(f) && f.count.fits(|t|)
    modifies w
    ensures w.Valid() && w.pos == |w.buf| && w.buf == old(w.buf) + TableBytes(f, t)
  {
    var countAt := w.pos;
    w.Append(f.count.enc(0));
    var n := WritePairs(f.pair, w, t);
    var end := w.pos;
    Assoc(old(w.buf), f.count.enc(0), PairsBytes(f.pair, t));
    Patched(old(w.buf), f.count.enc(0), f.count.enc(n), PairsBytes(f.pair, t));
    w.Seek(countAt);
    w.WriteAll(f.count.enc(n));
    w.Seek(end);
  }

  method WriteTables<A(!new), M(!new), T(!new), L(!new)>(f: Format<A, M, T, L>, w: Writer, ts: seq<Table>)
    requires w.Valid() && w.pos == |w.buf| && LawfulFormat(f) && AllFit(f, ts)
    requires forall i :: 0 <= i < |ts| ==> Sorted(ts[i])
    modifies w
    ensures w.Valid() && w.pos == |w.buf| && w.buf == old(w.buf) + TablesBytes(f, ts)
  {
    var i := 0;
    while i < |ts|
      invariant w.Valid() && w.pos == |w.buf| && i <= |ts|
      invariant w.buf + TablesBytes(f, ts[i..]) == old(w.buf) + TablesBytes(f, ts)
    {
      ghost var before := w.buf;
      assert TableFits(f, ts[i]);
      WriteTable(f, w, ts[i]);
      assert ts[i..][1..] == ts[i + 1..];
      Assoc(before, TableBytes(f, ts[i]), TablesBytes(f, ts[i + 1..]));
      i := i + 1;
    }
  }

  /** The chunked, count-patched body is the whole-value encoding, byte for byte. */
  method WriteBody<A(!new), M(!new), T(!new), L(!new)>(f: Format<A, M, T, L>, src: Source<A, M, T, L>) returns (bytes: Bytes)
    requires LawfulFormat(f) && AllFit(f, src.tables)
    requires forall i :: 0 <= i < |src.tables| ==> Sorted(src.tables[i])
    ensures bytes == BodyBytes(f, src)
  {
    var w := new Writer();
    WritePayload(f, w, src);
    var auth := f.auth.enc(Trailer(TRAILER_MAGIC, Some(src.auth)));
    var leases := f.leases.enc(Trailer(LEASE_TRAILER_MAGIC, Some(src.leases)));
    w.Append(auth);
    w.Append(leases);
    Assoc(PayloadBytes(f, src), auth, leases);
    bytes := w.buf;
  }

  method WritePayload<A(!new), M(!new), T(!new), L(!new)>(f: Format<A, M, T, L>, w: Writer, src: Source<A, M, T, L>)
    requires LawfulFormat(f) && AllFit(f, src.tables)
    requires forall i :: 0 <= i < |src.tables| ==> Sorted(src.tables[i])
    requires w.Valid() && w.pos == 0 && w.buf == []
    modifies w
    ensures w.Valid() && w.pos == |w.buf| && w.buf == PayloadBytes(f, src)
  {
    var applied, membership := f.applied.enc(src.applied), f.membership.enc(src.membership);
    ghost var tables := TablesBytes(f, src.tables);
    w.Append(applied);
    assert w.buf == applied;
    w.Append(membership);
    WriteTables(f, w, src.tables);
    assert w.buf == (applied + membership) + tables;
    Assoc(applied, membership, tables);
  }
}
