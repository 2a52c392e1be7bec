/** Byte-string keys: their order, ranges as requests name them, and the range
    that selects a prefix. */
module Keys {

  type Byte = x: nat | x < 256
  type Key = seq<Byte>

  /** Byte-lexicographic order. */
  predicate Lt(a: Key, b: Key) {
    if b == [] then false
    else if a == [] then true
    else if a[0] != b[0] then a[0] < b[0]
    else Lt(a[1..], b[1..])
  }

  predicate Le(a: Key, b: Key) { !Lt(b, a) }

  lemma {:induction false} Trichotomy(a: Key, b: Key)
    ensures Lt(a, b) || a == b || Lt(b, a)
    ensures !(Lt(a, b) && Lt(b, a)) && !Lt(a, a)
  {
    if a != [] && b != [] && a[0] == b[0] {
      Trichotomy(a[1..], b[1..]);
      assert a == [a[0]] + a[1..] && b == [b[0]] + b[1..];
    }
    if a != [] { Irreflexive(a); }
  }

  lemma {:induction false} Irreflexive(a: Key)
    ensures !Lt(a, a)
  {
    if a != [] { Irreflexive(a[1..]); }
  }

  lemma {:induction false} Transitive(a: Key, b: Key, c: Key)
    requires Lt(a, b) && Lt(b, c)
    ensures Lt(a, c)
  {
    if a != [] && a[0] == b[0] == c[0] { Transitive(a[1..], b[1..], c[1..]); }
  }

  lemma LeTransitive(a: Key, b: Key, c: Key)
    requires Le(a, b) && Le(b, c)
    ensures Le(a, c)
  {
    Trichotomy(a, b);
    Trichotomy(b, c);
    if Lt(c, a) {
      if a == b || b == c { assert false; }
      Transitive(a, b, c);
      Trichotomy(a, c);
    }
  }

  lemma LeLtTransitive(a: Key, b: Key, c: Key)
    requires Le(a, b) && Lt(b, c)
    ensures Lt(a, c)
  {
    Trichotomy(a, b);
    if a != b { Transitive(a, b, c); }
  }

  lemma LtLeTransitive(a: Key, b: Key, c: Key)
    requires Lt(a, b) && Le(b, c)
    ensures Lt(a, c)
  {
    Trichotomy(b, c);
    if b != c { Transitive(a, b, c); }
  }

  /** Whether a request for `[key, end)` names `probe`: one key if `end` is empty, all from `key` on if
      it is a single zero byte. */
  predicate InRange(probe: Key, key: Key, end: Key) {
    if end == [] then probe == key
    else if end == [0] then Le(key, probe)
    else Le(key, probe) && Lt(probe, end)
  }

  // ---------- Prefixes ----------

  predicate AllFF(p: Key) { forall i :: 0 <= i < |p| ==> p[i] == 255 }

  /** The end of the range that selects prefix `p`. */
  function PrefixEnd(p: Key): Key {
    if p == [] || AllFF(p) then [0]
    else if AllFF(p[1..]) then [p[0] + 1]
    else [p[0]] + PrefixEnd(p[1..])
  }

  lemma {:induction false} PrefixEndShape(p: Key)
    ensures PrefixEnd(p) != []
    ensures AllFF(p) <==> PrefixEnd(p) == [0]
  {
    if !AllFF(p) && !AllFF(p[1..]) { PrefixEndShape(p[1..]); }
  }

  lemma {:induction false} FromAllFF(p: Key, probe: Key)
    requires AllFF(p)
    ensures Le(p, probe) <==> p <= probe
  {
    if p != [] && probe != [] && probe[0] == 255 {
      FromAllFF(p[1..], probe[1..]);
      assert p <= probe <==> p[1..] <= probe[1..] by {
        assert p == [p[0]] + p[1..] && probe == [probe[0]] + probe[1..];
      }
    }
  }

  /** The range built from any prefix, empty and all-0xFF ones included, names exactly the keys that
      start with it. */
  lemma {:induction false} PrefixRangeExact(p: Key, probe: Key)
    ensures InRange(probe, p, PrefixEnd(p)) <==> p <= probe
  {
    PrefixEndShape(p);
    if AllFF(p) {
      FromAllFF(p, probe);
    } else if probe != [] && probe[0] == p[0] {
      var e := PrefixEnd(p);
      assert p <= probe <==> p[1..] <= probe[1..] by {
        assert p == [p[0]] + p[1..] && probe == [probe[0]] + probe[1..];
      }
      if AllFF(p[1..]) {
        FromAllFF(p[1..], probe[1..]);
      } else {
        PrefixRangeExact(p[1..], probe[1..]);
        PrefixEndShape(p[1..]);
        assert e[1..] == PrefixEnd(p[1..]);
      }
    } else {
      assert !(p <= probe);
      assert probe == [] ==> Lt(probe, p);
      assert probe != [] && probe[0] > p[0] ==> !Lt(probe, PrefixEnd(p));
    }
  }

  lemma {:induction false} PrefixEndAt(p: Key, n: nat)
    requires 0 < n <= |p| && p[n - 1] < 255 && AllFF(p[n..])
    ensures PrefixEnd(p) == p[..n - 1] + [p[n - 1] + 1]
  {
    if n > 1 {
      assert p[1..][n - 1..] == p[n..];
      PrefixEndAt(p[1..], n - 1);
      assert p[1..][n - 2] == p[n - 1];
      assert [p[0]] + p[1..][..n - 2] == p[..n - 1];
    } else {
      assert p[1..] == p[n..];
    }
  }

  /** The server's form: drop trailing 0xFF bytes, raise the last one left. */
  method RangeEndOfPrefix(p: Key) returns (end: Key)
    ensures end == PrefixEnd(p)
    ensures forall probe: Key :: InRange(probe, p, end) <==> p <= probe
  {
    forall probe: Key ensures InRange(probe, p, PrefixEnd(p)) <==> p <= probe { PrefixRangeExact(p, probe); }
    end := p;
    while end != []
      invariant end == p[..|end|] && |end| <= |p| && AllFF(p[|end|..])
      decreases |end|
    {
      var last := end[|end| - 1];
      if last < 255 {
        PrefixEndAt(p, |end|);
        return end[..|end| - 1] + [last + 1];
      }
      end := end[..|end| - 1];
    }
    end := [0];
  }

  /** The client's form: raise the last byte below 0xFF in place and cut after it. */
  method PrefixRangeEnd(p: Key) returns (end: Key)
    ensures end == PrefixEnd(p)
  {
    var i := |p|;
    while i > 0
      invariant 0 <= i <= |p| && AllFF(p[i..])
    {
      i := i - 1;
      if p[i] < 255 {
        PrefixEndAt(p, i + 1);
        return p[i := p[i] + 1][..i + 1];
      }
    }
    end := [0];
  }
}
