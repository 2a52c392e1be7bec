/** Authorization of nested transactions: what a txn may touch, whichever
    branches it takes, against what the user's roles permit. */
module Authz {

  import opened Common
  import opened Keys

  datatype Kind = Read | Write
  datatype Access = Access(kind: Kind, key: Key, end: Key)

  /** A stored permission: its type and its range. */
  datatype Permission = Permission(mayRead: bool, mayWrite: bool, key: Key, end: Key)

  predicate Allows(p: Permission, kind: Kind) { if kind == Read then p.mayRead else p.mayWrite }

  // ---------- Range containment ----------

  /** A range as bounds: inclusive low, exclusive high, or no high bound. */
  datatype Bounds = Bounds(lo: Key, hi: Option<Key>)

  function BoundsFor(key: Key, end: Key): Bounds {
    if end == [] then Bounds(key, Some(key + [0]))
    else if end == [0] then Bounds(key, None)
    else Bounds(key, Some(end))
  }

  predicate Within(b: Bounds, probe: Key) { Le(b.lo, probe) && (b.hi.Some? ==> Lt(probe, b.hi.value)) }

  predicate PermCovers(p: Permission, kind: Kind, key: Key, end: Key) {
    var req, perm := BoundsFor(key, end), BoundsFor(p.key, p.end);
    && Allows(p, kind)
    && Le(perm.lo, req.lo)
    && (perm.hi.Some? ==> req.hi.Some? && Le(req.hi.value, perm.hi.value))
  }

  lemma {:induction false} SuccessorIsNext(key: Key, probe: Key)
    ensures Le(key, probe) && Lt(probe, key + [0]) <==> probe == key
  {
    if key == [] {
      assert key + [0] == [0];
    } else {
      assert (key + [0])[1..] == key[1..] + [0];
      if probe != [] && probe[0] == key[0] {
        SuccessorIsNext(key[1..], probe[1..]);
        assert key == [key[0]] + key[1..] && probe == [probe[0]] + probe[1..];
      }
    }
  }

  /** Bounds mean what the request means. */
  lemma BoundsAgree(key: Key, end: Key, probe: Key)
    ensures Within(BoundsFor(key, end), probe) <==> InRange(probe, key, end)
  {
    SuccessorIsNext(key, probe);
  }

  function Max(a: Key, b: Key): Key { if Lt(a, b) then b else a }

  /** A permission covers a range that names any key at all exactly when it is of the right kind and
      every key of the range is in the permission's own. */
  lemma CoversExactly(p: Permission, kind: Kind, key: Key, end: Key)
    requires exists probe: Key :: InRange(probe, key, end)
    ensures PermCovers(p, kind, key, end) <==>
      && (kind == Read ==> p.mayRead) && (kind == Write ==> p.mayWrite)
      && forall probe: Key :: InRange(probe, key, end) ==> InRange(probe, p.key, p.end)
  {
    var req, perm := BoundsFor(key, end), BoundsFor(p.key, p.end);
    if PermCovers(p, kind, key, end) {
      forall probe: Key | InRange(probe, key, end) ensures InRange(probe, p.key, p.end) {
        CoveredKey(p, kind, key, end, probe);
      }
    }
    if forall probe: Key :: InRange(probe, key, end) ==> InRange(probe, p.key, p.end) {
      var some: Key :| InRange(some, key, end);
      LowestIsIn(key, end, some);
      BoundsAgree(p.key, p.end, req.lo);
      if perm.hi.Some? && !(req.hi.Some? && Le(req.hi.value, perm.hi.value)) {
        var outside := PastTheEnd(p, key, end);
      }
    }
  }

  /** A range that goes on past a permission's end has a key there. */
  lemma PastTheEnd(p: Permission, key: Key, end: Key) returns (outside: Key)
    requires InRange(key, key, end)
    requires var req, perm := BoundsFor(key, end), BoundsFor(p.key, p.end);
             perm.hi.Some? && !(req.hi.Some? && Le(req.hi.value, perm.hi.value))
    ensures InRange(outside, key, end) && !InRange(outside, p.key, p.end)
  {
    var hi := BoundsFor(p.key, p.end).hi.value;
    outside := Max(key, hi);
    Trichotomy(key, hi);
    Trichotomy(hi, hi);
    BoundsAgree(key, end, key);
    BoundsAgree(key, end, outside);
    BoundsAgree(p.key, p.end, outside);
  }

  lemma LowestIsIn(key: Key, end: Key, some: Key)
    requires InRange(some, key, end)
    ensures InRange(key, key, end)
  {
    Trichotomy(key, key);
    BoundsAgree(key, end, key);
    BoundsAgree(key, end, some);
    var hi := BoundsFor(key, end).hi;
    if hi.Some? { LeLtTransitive(key, some, hi.value); }
  }

  /** What a permission covers, it contains: for every range, empty ones too. */
  lemma CoveredKey(p: Permission, kind: Kind, key: Key, end: Key, probe: Key)
    requires PermCovers(p, kind, key, end) && InRange(probe, key, end)
    ensures InRange(probe, p.key, p.end)
  {
    BoundsAgree(key, end, probe);
    BoundsAgree(p.key, p.end, probe);
    var req, perm := BoundsFor(key, end), BoundsFor(p.key, p.end);
    LeTransitive(perm.lo, req.lo, probe);
    if perm.hi.Some? { LtLeTransitive(probe, req.hi.value, perm.hi.value); }
  }

  // ---------- authorize_all ----------

  datatype User = User(name: string, roles: seq<string>)
  datatype Verdict = Ok | UserEmpty | PermissionDenied

  predicate Covered(perms: seq<Permission>, a: Access) {
    exists i :: 0 <= i < |perms| && PermCovers(perms[i], a.kind, a.key, a.end)
  }

  /** The permissions of every role that still exists. */
  function Held(roles: map<string, seq<Permission>>, names: seq<string>): seq<Permission> {
    if names == [] then []
    else
      var last := names[|names| - 1];
      Held(roles, names[..|names| - 1]) + if last in roles then roles[last] else []
  }

  /** Exactly the permissions of the roles among the names that exist. */
  lemma {:induction false} HeldExactly(roles: map<string, seq<Permission>>, names: seq<string>, p: Permission)
    ensures p in Held(roles, names) <==> exists n <- names :: n in roles && p in roles[n]
  {
    if names != [] {
      var front, last := names[..|names| - 1], names[|names| - 1];
      assert names == front + [last];
      HeldExactly(roles, front, p);
    }
  }

  /** A role that exists among the names has a permission that covers the access. */
  ghost predicate Granted(roles: map<string, seq<Permission>>, names: seq<string>, a: Access) {
    exists n: string, p: Permission :: n in names && n in roles && p in roles[n] && PermCovers(p, a.kind, a.key, a.end)
  }

  lemma CoveredIsGranted(roles: map<string, seq<Permission>>, names: seq<string>, a: Access)
    ensures Covered(Held(roles, names), a) <==> Granted(roles, names, a)
  {
    var perms := Held(roles, names);
    if Covered(perms, a) {
      var i :| 0 <= i < |perms| && PermCovers(perms[i], a.kind, a.key, a.end);
      HeldExactly(roles, names, perms[i]);
    }
    if Granted(roles, names, a) {
      var n: string, p: Permission :| n in names && n in roles && p in roles[n] && PermCovers(p, a.kind, a.key, a.end);
      HeldExactly(roles, names, p);
    }
  }

  predicate IsRoot(users: map<string, User>, name: string) {
    name == "root" || (name in users && "root" in users[name].roles)
  }

  /** Allowed without looking at any key. */
  predicate Exempt(enabled: bool, users: map<string, User>, user: Option<string>, accesses: seq<Access>) {
    !enabled || accesses == [] || (user.Some? && IsRoot(users, user.value))
  }

  method AuthorizeAll(enabled: bool, users: map<string, User>, roles: map<string, seq<Permission>>,
                      user: Option<string>, accesses: seq<Access>) returns (v: Verdict)
    ensures v == Ok <==>
      || Exempt(enabled, users, user, accesses)
      || (user.Some? && user.value in users
          && forall a <- accesses :: Granted(roles, users[user.value].roles, a))
    ensures v == UserEmpty <==> enabled && accesses != [] && user.None?
  {
    if !enabled || accesses == [] { return Ok; }
    if user.None? { return UserEmpty; }
    if user.value == "root" { return Ok; }
    if user.value !in users { assert accesses[0] in accesses; return PermissionDenied; }
    var names := users[user.value].roles;
    if "root" in names { return Ok; }
    forall a: Access { CoveredIsGranted(roles, names, a); }
    var perms, i := [], 0;
    while i < |names|
      invariant i <= |names| && perms == Held(roles, names[..i])
    {
      assert names[..i + 1][..i] == names[..i];
      if names[i] in roles { perms := perms + roles[names[i]]; }
      i := i + 1;
    }
    assert names[..i] == names;
    i := 0;
    while i < |accesses|
      invariant i <= |accesses| && forall k :: 0 <= k < i ==> Covered(perms, accesses[k])
    {
      if !(exists k :: 0 <= k < |perms| && PermCovers(perms[k], accesses[i].kind, accesses[i].key, accesses[i].end)) {
        assert !Covered(perms, accesses[i]);
        return PermissionDenied;
      }
      i := i + 1;
    }
    v := Ok;
  }

  // ---------- Transactions ----------

  datatype Txn = Txn(compares: seq<(Key, Key)>, success: seq<Op>, failure: seq<Op>)
  datatype Op =
    | Range(key: Key, end: Key)
    | Put(key: Key, prevKv: bool)
    | Delete(key: Key, end: Key, prevKv: bool)
    | Nested(txn: Txn)
    | Empty

  function CompareAccesses(cs: seq<(Key, Key)>): seq<Access> {
    if cs == [] then [] else [Access(Read, cs[0].0, cs[0].1)] + CompareAccesses(cs[1..])
  }

  function OpAccesses(op: Op): seq<Access> {
    match op
    case Range(key, end) => [Access(Read, key, end)]
    case Put(key, prev) => [Access(Write, key, [])] + if prev then [Access(Read, key, [])] else []
    case Delete(key, end, prev) => [Access(Write, key, end)] + if prev then [Access(Read, key, end)] else []
    case Nested(txn) => TxnAccesses(txn)
    case Empty => []
  }

  function OpsAccesses(ops: seq<Op>): seq<Access> {
    if ops == [] then [] else OpAccesses(ops[0]) + OpsAccesses(ops[1..])
  }

  function TxnAccesses(t: Txn): seq<Access> {
    CompareAccesses(t.compares) + (OpsAccesses(t.success) + OpsAccesses(t.failure))
  }

  /** `txn_accesses`: pushes onto the list it is given. */
  method CollectAccesses(t: Txn, given: seq<Access>) returns (out: seq<Access>)
    ensures out == given + TxnAccesses(t)
    decreases t, 1
  {
    out := given;
    var i := 0;
    while i < |t.compares|
      invariant i <= |t.compares| && out + CompareAccesses(t.compares[i..]) == given + CompareAccesses(t.compares)
    {
      var a := Access(Read, t.compares[i].0, t.compares[i].1);
      Assoc(out, [a], CompareAccesses(t.compares[i + 1..]));
      assert t.compares[i..] == [t.compares[i]] + t.compares[i + 1..];
      out, i := out + [a], i + 1;
    }
    assert out == given + CompareAccesses(t.compares);
    out := CollectOps(t, true, out);
    out := CollectOps(t, false, out);
  }

  function Branch(t: Txn, taken: bool): seq<Op> { if taken then t.success else t.failure }

  method CollectOps(t: Txn, taken: bool, given: seq<Access>) returns (out: seq<Access>)
    ensures out == given + OpsAccesses(Branch(t, taken))
    decreases t, 0
  {
    out := given;
    var ops, i := Branch(t, taken), 0;
    while i < |ops|
      invariant i <= |ops| && out + OpsAccesses(ops[i..]) == given + OpsAccesses(ops)
    {
      ghost var before := out;
      match ops[i] {
        case Nested(txn) => out := CollectAccesses(txn, out);
        case op => out := out + OpAccesses(op);
      }
      Assoc(before, OpAccesses(ops[i]), OpsAccesses(ops[i + 1..]));
      assert ops[i..] == [ops[i]] + ops[i + 1..];
      i := i + 1;
    }
  }

  // ---------- What an execution touches ----------

  /** `probe` is read or written by one of the ops, where `choose` says how every nested compare comes
      out: any function of where in the txn it stands. */
  ghost predicate OpTouches(op: Op, choose: seq<nat> -> bool, at: seq<nat>, kind: Kind, probe: Key) {
    match op
    case Range(key, end) => kind == Read && InRange(probe, key, end)
    case Put(key, prev) => (kind == Write || prev) && probe == key
    case Delete(key, end, prev) => (kind == Write || prev) && InRange(probe, key, end)
    case Nested(txn) => Touches(txn, choose, at, kind, probe)
    case Empty => false
  }

  ghost predicate Touches(t: Txn, choose: seq<nat> -> bool, at: seq<nat>, kind: Kind, probe: Key) {
    || (kind == Read && exists i :: 0 <= i < |t.compares| && InRange(probe, t.compares[i].0, t.compares[i].1))
    || (var ops := Branch(t, choose(at));
        exists i :: 0 <= i < |ops| && OpTouches(ops[i], choose, at + [i], kind, probe))
  }

  predicate Listed(accesses: seq<Access>, kind: Kind, probe: Key) {
    exists a <- accesses :: a.kind == kind && InRange(probe, a.key, a.end)
  }

  lemma {:induction false} ComparesListed(cs: seq<(Key, Key)>, i: nat, probe: Key)
    requires i < |cs| && InRange(probe, cs[i].0, cs[i].1)
    ensures Listed(CompareAccesses(cs), Read, probe)
  {
    if i == 0 {
      assert CompareAccesses(cs)[0] == Access(Read, cs[0].0, cs[0].1);
    } else {
      ComparesListed(cs[1..], i - 1, probe);
    }
  }

  lemma ListedInOps(ops: seq<Op>, i: nat, kind: Kind, probe: Key)
    requires i < |ops| && Listed(OpAccesses(ops[i]), kind, probe)
    ensures Listed(OpsAccesses(ops), kind, probe)
    decreases i
  {
    if i > 0 { ListedInOps(ops[1..], i - 1, kind, probe); }
  }

  /** Everything any execution touches is in the list, whatever the compares decide. */
  lemma {:induction false} TouchedIsListed(t: Txn, choose: seq<nat> -> bool, at: seq<nat>, kind: Kind, probe: Key)
    requires Touches(t, choose, at, kind, probe)
    ensures Listed(TxnAccesses(t), kind, probe)
    decreases t
  {
    if kind == Read && exists i :: 0 <= i < |t.compares| && InRange(probe, t.compares[i].0, t.compares[i].1) {
      var i :| 0 <= i < |t.compares| && InRange(probe, t.compares[i].0, t.compares[i].1);
      ComparesListed(t.compares, i, probe);
    } else {
      var ops := Branch(t, choose(at));
      var i :| 0 <= i < |ops| && OpTouches(ops[i], choose, at + [i], kind, probe);
      TouchedOpIsListed(t, choose(at), i, choose, at + [i], kind, probe);
      ListedInOps(ops, i, kind, probe);
    }
  }

  lemma {:induction false} TouchedOpIsListed(
      t: Txn, taken: bool, i: nat, choose: seq<nat> -> bool, at: seq<nat>, kind: Kind, probe: Key)
    requires i < |Branch(t, taken)| && OpTouches(Branch(t, taken)[i], choose, at, kind, probe)
    ensures Listed(OpAccesses(Branch(t, taken)[i]), kind, probe)
    decreases t, 0
  {
    var op := Branch(t, taken)[i];
    match op
    case Nested(txn) => TouchedIsListed(txn, choose, at, kind, probe);
    case Range(key, end) => assert OpAccesses(op)[0] == Access(Read, key, end);
    case Put(key, prev) =>
      assert OpAccesses(op)[0] == Access(Write, key, []);
      assert kind == Read ==> OpAccesses(op)[1] == Access(Read, key, []);
    case Delete(key, end, prev) =>
      assert OpAccesses(op)[0] == Access(Write, key, end);
      assert kind == Read ==> OpAccesses(op)[1] == Access(Read, key, end);
    case Empty =>
  }

  // ---------- Nothing else is listed ----------

  /** What a txn touches at `at` depends only on the choices at `at` and deeper. */
  ghost predicate AgreeFrom(a: seq<nat> -> bool, b: seq<nat> -> bool, depth: nat) {
    forall p: seq<nat> :: |p| >= depth ==> a(p) == b(p)
  }

  lemma {:induction false} TouchesSame(t: Txn, a: seq<nat> -> bool, b: seq<nat> -> bool, at: seq<nat>, kind: Kind, probe: Key)
    requires AgreeFrom(a, b, |at|) && Touches(t, a, at, kind, probe)
    ensures Touches(t, b, at, kind, probe)
    decreases t, 1
  {
    if !(kind == Read && exists i :: 0 <= i < |t.compares| && InRange(probe, t.compares[i].0, t.compares[i].1)) {
      var ops := Branch(t, a(at));
      var i :| 0 <= i < |ops| && OpTouches(ops[i], a, at + [i], kind, probe);
      OpTouchesSame(t, a(at), i, a, b, at + [i], kind, probe);
      assert ops == Branch(t, b(at));
    }
  }

  lemma {:induction false} OpTouchesSame(
      t: Txn, taken: bool, i: nat, a: seq<nat> -> bool, b: seq<nat> -> bool, at: seq<nat>, kind: Kind, probe: Key)
    requires i < |Branch(t, taken)| && AgreeFrom(a, b, |at|) && OpTouches(Branch(t, taken)[i], a, at, kind, probe)
    ensures OpTouches(Branch(t, taken)[i], b, at, kind, probe)
    decreases t, 0
  {
    match Branch(t, taken)[i]
    case Nested(txn) => TouchesSame(txn, a, b, at, kind, probe);
    case _ =>
  }

  lemma {:induction false} ListedCompare(cs: seq<(Key, Key)>, kind: Kind, probe: Key)
    requires Listed(CompareAccesses(cs), kind, probe)
    ensures kind == Read && exists i :: 0 <= i < |cs| && InRange(probe, cs[i].0, cs[i].1)
  {
    if !(kind == Read && InRange(probe, cs[0].0, cs[0].1)) {
      ListedCompare(cs[1..], kind, probe);
      var i :| 0 <= i < |cs[1..]| && InRange(probe, cs[1..][i].0, cs[1..][i].1);
      assert cs[i + 1] == cs[1..][i];
    }
  }

  lemma {:induction false} ListedOp(ops: seq<Op>, kind: Kind, probe: Key) returns (i: nat)
    requires Listed(OpsAccesses(ops), kind, probe)
    ensures i < |ops| && Listed(OpAccesses(ops[i]), kind, probe)
  {
    if Listed(OpAccesses(ops[0]), kind, probe) {
      i := 0;
    } else {
      var rest := ListedOp(ops[1..], kind, probe);
      i := rest + 1;
    }
  }

  /** Whatever is listed, some execution touches: the list asks for no more than it must. */
  lemma {:induction false} ListedIsTouched(t: Txn, at: seq<nat>, kind: Kind, probe: Key) returns (choose: seq<nat> -> bool)
    requires Listed(TxnAccesses(t), kind, probe)
    ensures Touches(t, choose, at, kind, probe)
    decreases t, 1
  {
    if Listed(CompareAccesses(t.compares), kind, probe) {
      ListedCompare(t.compares, kind, probe);
      choose := (_: seq<nat>) => true;
    } else {
      var taken := Listed(OpsAccesses(t.success), kind, probe);
      var i := ListedOp(Branch(t, taken), kind, probe);
      var inner := ListedOpIsTouched(t, taken, i, at + [i], kind, probe);
      choose := (p: seq<nat>) => if p == at then taken else inner(p);
      OpTouchesSame(t, taken, i, inner, choose, at + [i], kind, probe);
    }
  }

  lemma {:induction false} ListedOpIsTouched(t: Txn, taken: bool, i: nat, at: seq<nat>, kind: Kind, probe: Key)
      returns (choose: seq<nat> -> bool)
    requires i < |Branch(t, taken)| && Listed(OpAccesses(Branch(t, taken)[i]), kind, probe)
    ensures OpTouches(Branch(t, taken)[i], choose, at, kind, probe)
    decreases t, 0
  {
    choose := (_: seq<nat>) => true;
    match Branch(t, taken)[i]
    case Nested(txn) => choose := ListedIsTouched(txn, at, kind, probe);
    case Put(key, prev) => SuccessorIsNext(key, probe);
    case _ =>
  }

  /** The list is exact: a key is in it, for reading or for writing, if and only if some outcome of the
      compares has the txn read or write it. */
  lemma ListedExactly(t: Txn, kind: Kind, probe: Key)
    ensures Listed(TxnAccesses(t), kind, probe) <==> exists choose: seq<nat> -> bool :: Touches(t, choose, [], kind, probe)
  {
    if Listed(TxnAccesses(t), kind, probe) {
      var choose := ListedIsTouched(t, [], kind, probe);
      assert Touches(t, choose, [], kind, probe);
    } else {
      forall choose: seq<nat> -> bool ensures !Touches(t, choose, [], kind, probe) {
        if Touches(t, choose, [], kind, probe) { TouchedIsListed(t, choose, [], kind, probe); }
      }
    }
  }

  /** A txn whose accesses are all covered touches, on every store and under every choice of branches at
      every depth, only keys inside a held permission of the right kind. */
  lemma AuthorizedTxnStaysInside(
      t: Txn, perms: seq<Permission>, choose: seq<nat> -> bool, kind: Kind, probe: Key) returns (i: nat)
    requires forall a <- TxnAccesses(t) :: Covered(perms, a)
    requires Touches(t, choose, [], kind, probe)
    ensures i < |perms| && (kind == Read ==> perms[i].mayRead) && (kind == Write ==> perms[i].mayWrite)
    ensures InRange(probe, perms[i].key, perms[i].end)
  {
    TouchedIsListed(t, choose, [], kind, probe);
    var a :| a in TxnAccesses(t) && a.kind == kind && InRange(probe, a.key, a.end);
    assert Covered(perms, a);
    i :| i < |perms| && PermCovers(perms[i], a.kind, a.key, a.end);
    CoveredKey(perms[i], a.kind, a.key, a.end, probe);
  }

  /** A role that exists among the names has a permission to read, or to write, that has the key. */
  ghost predicate MayRead(roles: map<string, seq<Permission>>, names: seq<string>, probe: Key) {
    exists n: string, p: Permission :: n in names && n in roles && p in roles[n] && p.mayRead && InRange(probe, p.key, p.end)
  }

  ghost predicate MayWrite(roles: map<string, seq<Permission>>, names: seq<string>, probe: Key) {
    exists n: string, p: Permission :: n in names && n in roles && p in roles[n] && p.mayWrite && InRange(probe, p.key, p.end)
  }

  lemma GrantedKey(roles: map<string, seq<Permission>>, names: seq<string>, a: Access, probe: Key)
    requires Granted(roles, names, a) && InRange(probe, a.key, a.end)
    ensures if a.kind == Read then MayRead(roles, names, probe) else MayWrite(roles, names, probe)
  {
    var n: string, p: Permission :| n in names && n in roles && p in roles[n] && PermCovers(p, a.kind, a.key, a.end);
    CoveredKey(p, a.kind, a.key, a.end, probe);
  }

  /** Writing each of the keys. */
  function Writes(keys: seq<Key>): seq<Access> {
    seq(|keys|, i requires 0 <= i < |keys| => Access(Write, keys[i], []))
  }

  lemma WritesGranted(roles: map<string, seq<Permission>>, names: seq<string>, keys: seq<Key>, k: Key)
    requires k in keys && forall a <- Writes(keys) :: Granted(roles, names, a)
    ensures MayWrite(roles, names, k)
  {
    var i :| 0 <= i < |keys| && keys[i] == k;
    var a := Writes(keys)[i];
    assert a in Writes(keys) && Granted(roles, names, a);
    GrantedKey(roles, names, a, k);
  }

  /** What any execution touches is granted, if every access is. */
  lemma TouchedIsGranted(roles: map<string, seq<Permission>>, names: seq<string>, t: Txn,
                         choose: seq<nat> -> bool, kind: Kind, probe: Key)
    requires (forall a <- TxnAccesses(t) :: Granted(roles, names, a)) && Touches(t, choose, [], kind, probe)
    ensures if kind == Read then MayRead(roles, names, probe) else MayWrite(roles, names, probe)
  {
    TouchedIsListed(t, choose, [], kind, probe);
    var a :| a in TxnAccesses(t) && a.kind == kind && InRange(probe, a.key, a.end);
    GrantedKey(roles, names, a, probe);
  }

  /** The check of a Txn request, from its list of accesses to the verdict; `attached` are the keys on the
      leases its puts name. For a user who is not exempt, Ok means that whatever the compares decide at any
      depth, every key an execution reads is in a permission to read of one of the user's roles, every key
      it writes or deletes in one to write, and so is every attached key. */
  method AuthorizeTxn(enabled: bool, users: map<string, User>, roles: map<string, seq<Permission>>,
                      user: Option<string>, t: Txn, attached: seq<Key>) returns (v: Verdict)
    ensures v == Ok && !Exempt(enabled, users, user, TxnAccesses(t) + Writes(attached)) ==>
      && user.Some? && user.value in users
      && var names := users[user.value].roles;
         && (forall choose: seq<nat> -> bool, probe: Key ::
               && (Touches(t, choose, [], Read, probe) ==> MayRead(roles, names, probe))
               && (Touches(t, choose, [], Write, probe) ==> MayWrite(roles, names, probe)))
         && forall k <- attached :: MayWrite(roles, names, k)
    ensures v == PermissionDenied ==> user.Some? && (user.value in users ==>
      exists a <- TxnAccesses(t) + Writes(attached) :: !Granted(roles, users[user.value].roles, a))
    ensures v == UserEmpty <==> enabled && TxnAccesses(t) + Writes(attached) != [] && user.None?
  {
    var accesses := CollectAccesses(t, []);
    assert accesses == TxnAccesses(t);
    accesses := accesses + Writes(attached);
    v := AuthorizeAll(enabled, users, roles, user, accesses);
    if v == Ok && !Exempt(enabled, users, user, accesses) {
      ghost var names := users[user.value].roles;
      assert (forall a <- TxnAccesses(t) :: a in accesses) && forall a <- Writes(attached) :: a in accesses;
      forall choose: seq<nat> -> bool, probe: Key
        ensures Touches(t, choose, [], Read, probe) ==> MayRead(roles, names, probe)
        ensures Touches(t, choose, [], Write, probe) ==> MayWrite(roles, names, probe)
      {
        if Touches(t, choose, [], Read, probe) { TouchedIsGranted(roles, names, t, choose, Read, probe); }
        if Touches(t, choose, [], Write, probe) { TouchedIsGranted(roles, names, t, choose, Write, probe); }
      }
      forall k | k in attached ensures MayWrite(roles, names, k) { WritesGranted(roles, names, attached, k); }
    }
  }
}
