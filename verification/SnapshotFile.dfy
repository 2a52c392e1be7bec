/** A snapshot being received: into a file, and from the first write the volume
    will not take, into memory. Given the same calls it holds the bytes and the
    position of a plain in-memory cursor. */
module SnapshotFile {

  type Bytes = seq<nat>

  // ---------- A plain cursor ----------

  function Zeros(n: nat): Bytes { seq(n, _ => 0) }

  /** Zero-filled up to `pos`. */
  function Padded(b: Bytes, pos: nat): (r: Bytes)
    ensures |r| >= pos
  {
    if pos <= |b| then b else b + Zeros(pos - |b|)
  }

  /** The cursor pads to its position even for an empty write. */
  function CursorWrite(b: Bytes, pos: nat, data: Bytes): Bytes {
    var p := Padded(b, pos);
    p[..pos] + data + if pos + |data| <= |p| then p[pos + |data|..] else []
  }

  /** Byte by byte: what is written where it is written, what was there elsewhere, zeros in a gap. */
  lemma CursorWriteAt(b: Bytes, pos: nat, data: Bytes, i: nat)
    ensures var r := CursorWrite(b, pos, data);
            && |r| == (if pos + |data| < |b| then |b| else pos + |data|)
            && (i < |r| ==> r[i] == if pos <= i < pos + |data| then data[i - pos] else if i < |b| then b[i] else 0)
  {
  }

  /** A file is not touched by an empty write. */
  function FileWrite(b: Bytes, pos: nat, data: Bytes): Bytes { if data == [] then b else CursorWrite(b, pos, data) }

  /** Whether a file and a cursor do the same: not for an empty write past the end. */
  predicate Agree(b: Bytes, pos: nat, data: Bytes) { data != [] || pos <= |b| }

  lemma AgreeExactly(b: Bytes, pos: nat, data: Bytes)
    ensures FileWrite(b, pos, data) == CursorWrite(b, pos, data) <==> Agree(b, pos, data)
  {
    if data == [] {
      if pos <= |b| {
        assert b[..pos] + [] + b[pos..] == b;
      } else {
        assert |CursorWrite(b, pos, data)| == pos;
      }
    }
  }

  /** Writing all of `data` over a part of it that already landed. */
  lemma OverPartial(b: Bytes, pos: nat, data: Bytes, n: nat)
    requires n <= |data|
    ensures CursorWrite(FileWrite(b, pos, data[..n]), pos, data) == CursorWrite(b, pos, data)
  {
    var part := data[..n];
    if n > 0 {
      var p, q := Padded(b, pos), FileWrite(b, pos, part);
      assert q == p[..pos] + part + if pos + n <= |p| then p[pos + n..] else [];
      assert q[..pos] == p[..pos];
      if pos + |data| <= |p| {
        assert |q| == |p|;
        assert q[pos + |data|..] == p[pos + |data|..];
      }
    }
  }

  datatype SeekFrom = Start(n: nat) | End(d: int) | Current(d: int)

  function Target(size: nat, pos: nat, to: SeekFrom): int {
    match to
    case Start(n) => n
    case End(d) => size + d
    case Current(d) => pos + d
  }

  datatype Call = Seek(to: SeekFrom) | Write(data: Bytes)

  datatype Cursor = Cursor(bytes: Bytes, pos: nat)

  /** A seek to before the start is an error and moves nothing. */
  function Step(c: Cursor, call: Call): Cursor {
    match call
    case Seek(to) => var at := Target(|c.bytes|, c.pos, to); if at < 0 then c else c.(pos := at)
    case Write(data) => Cursor(CursorWrite(c.bytes, c.pos, data), c.pos + |data|)
  }

  /** Where a seek leaves the position: from the start, from the end or from where it was, and unmoved by a
      seek to before the start. */
  lemma SeekMoves(c: Cursor, n: nat, d: int)
    ensures Step(c, Seek(Start(n))) == Cursor(c.bytes, n)
    ensures Step(c, Seek(End(d))) == if |c.bytes| + d < 0 then c else Cursor(c.bytes, |c.bytes| + d)
    ensures Step(c, Seek(Current(d))) == if c.pos + d < 0 then c else Cursor(c.bytes, c.pos + d)
  {
  }

  /** The cursor after the first `n` calls. */
  function Run(c: Cursor, calls: seq<Call>, n: nat): Cursor
    requires n <= |calls|
  {
    if n == 0 then c else Step(Run(c, calls, n - 1), calls[n - 1])
  }

  // ---------- The received file ----------

  /** What the file system does to one write: it works, or part of it lands; then, if the file is
      retried, the same again; then whether the file can be read back. */
  datatype Fate = Fate(works: bool, lands: nat, outOfSpace: bool, retryWorks: bool, retryLands: nat, readsBack: bool)

  /** Out of space, room was made, which is done once only, and the file then took the write. */
  predicate Retried(fate: Fate, discarded: bool) { fate.outOfSpace && !discarded && fate.retryWorks }

  function Landed(data: Bytes, n: nat): Bytes { data[..if n < |data| then n else |data|] }

  class Received {
    /** The body's bytes and position, in the file or in memory. */
    var bytes: Bytes
    var pos: nat
    var inMemory: bool
    var discarded: bool
    /** How often the retained snapshots were discarded for room. */
    var discards: nat

    ghost predicate Valid()
      reads this
    {
      discards == if discarded then 1 else 0
    }

    ghost function Contents(): Cursor
      reads this
    {
      Cursor(bytes, pos)
    }

    constructor ()
      ensures Valid() && Contents() == Cursor([], 0) && !inMemory
    {
      bytes, pos, inMemory, discarded, discards := [], 0, false, false, 0;
    }

    /** `poll_write`. Only an empty write past the end of the file may leave the cursor's padding out. */
    method Write(data: Bytes, fate: Fate) returns (ok: bool)
      requires Valid()
      modifies this
      ensures Valid() && (old(inMemory) ==> ok && inMemory)
      ensures ok && (old(inMemory) || Agree(old(bytes), old(pos), data)) ==>
        Contents() == Step(old(Contents()), Call.Write(data))
      ensures ok && Contents() != Step(old(Contents()), Call.Write(data)) ==> Contents() == old(Contents())
      ensures ok == (old(inMemory) || fate.works || Retried(fate, old(discarded)) || fate.readsBack)
      ensures inMemory == (old(inMemory) || (!fate.works && !Retried(fate, old(discarded)) && fate.readsBack))
      ensures discarded == (old(discarded) || (!old(inMemory) && !fate.works && fate.outOfSpace))
    {
      if inMemory {
        bytes, pos := CursorWrite(bytes, pos, data), pos + |data|;
        return true;
      }
      AgreeExactly(bytes, pos, data);
      if fate.works {
        bytes, pos := FileWrite(bytes, pos, data), pos + |data|;
        return true;
      }
      var at := pos;
      PartLands(data, fate.lands);
      ok := RecoverWrite(at, data, fate);
    }

    /** A write fails after part of it landed. */
    method PartLands(data: Bytes, n: nat)
      modifies this`bytes, this`pos
      ensures CursorWrite(bytes, old(pos), data) == CursorWrite(old(bytes), old(pos), data)
      ensures data == [] ==> bytes == old(bytes)
    {
      var part := Landed(data, n);
      OverPartial(bytes, pos, data, |part|);
      bytes, pos := FileWrite(bytes, pos, part), pos + |part|;
    }

    /** Make room and try the file once more, then go on in memory. */
    method RecoverWrite(at: nat, data: Bytes, fate: Fate) returns (ok: bool)
      requires Valid() && !inMemory
      modifies this
      ensures Valid() && ok == (Retried(fate, old(discarded)) || fate.readsBack)
      ensures inMemory == (!Retried(fate, old(discarded)) && fate.readsBack)
      ensures discarded == (old(discarded) || fate.outOfSpace)
      ensures ok ==> pos == at + |data|
      ensures ok ==> bytes == CursorWrite(old(bytes), at, data) || bytes == FileWrite(old(bytes), at, data)
    {
      if fate.outOfSpace && !discarded {
        discarded, discards := true, discards + 1;
        pos := at;
        if fate.retryWorks {
          bytes, pos := FileWrite(bytes, at, data), at + |data|;
          return true;
        }
        PartLands(data, fate.retryLands);
      }
      if !fate.readsBack { return false; }
      bytes, pos, inMemory := CursorWrite(bytes, at, data), at + |data|, true;
      return true;
    }

    /** `start_seek`. */
    method SeekTo(to: SeekFrom) returns (ok: bool)
      requires Valid()
      modifies this`pos
      ensures Valid() && Contents() == Step(old(Contents()), Seek(to))
      ensures ok <==> Target(|bytes|, old(pos), to) >= 0
    {
      var at := Target(|bytes|, pos, to);
      ok := at >= 0;
      if ok { pos := at; }
    }
  }

  /** No empty write lands past the end. */
  ghost predicate NoEmptyGap(c: Cursor, calls: seq<Call>) {
    forall i :: 0 <= i < |calls| ==> NoGapAt(c, calls, i)
  }

  predicate NoGapAt(c: Cursor, calls: seq<Call>, i: nat)
    requires i < |calls|
  {
    calls[i].Write? ==> Agree(Run(c, calls, i).bytes, Run(c, calls, i).pos, calls[i].data)
  }

  /** Any calls, under any failures that are recovered: the contents are the plain cursor's if no empty
      write lands past the end, and the retained snapshots were discarded at most once. */
  method Receive(calls: seq<Call>, fates: seq<Fate>) returns (ok: bool, bytes: Bytes, pos: nat, discards: nat)
    requires |fates| == |calls|
    ensures discards <= 1
    ensures ok && NoEmptyGap(Cursor([], 0), calls) ==> Cursor(bytes, pos) == Run(Cursor([], 0), calls, |calls|)
    ensures !ok ==> exists i :: 0 <= i < |fates| && !fates[i].works && !fates[i].readsBack
  {
    var f := new Received();
    var i := 0;
    while i < |calls|
      invariant i <= |calls| && f.Valid()
      invariant NoEmptyGap(Cursor([], 0), calls) ==> f.Contents() == Run(Cursor([], 0), calls, i)
    {
      assert NoEmptyGap(Cursor([], 0), calls) ==> NoGapAt(Cursor([], 0), calls, i);
      match calls[i] {
        case Seek(to) =>
          var _ := f.SeekTo(to);
        case Write(data) =>
          var written := f.Write(data, fates[i]);
          if !written { return false, f.bytes, f.pos, f.discards; }
      }
      i := i + 1;
    }
    return true, f.bytes, f.pos, f.discards;
  }
}
