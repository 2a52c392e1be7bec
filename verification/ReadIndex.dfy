/** The read barrier: a leader's read index, confirmed by a quorum of saved vote
    terms in coalesced rounds, or taken at once by a sole voter. Raft itself is
    a contract on its steps: a leader needs a quorum of saved votes (election),
    committed entries are in every later leader's log below its first entry
    (Leader Completeness), and a leader answers a write after applying it.
    Indexes are counted as the source counts them, `index + 1`, 0 for none.

    Leaders are numbered in openraft's order of leader ids, by term and then by
    node. The barrier knows only their terms. */
module ReadIndex {

  import opened Common

  type Config = seq<set<nat>>

  // ---------- Quorums ----------

  /** A majority in every config of a joint membership. */
  predicate Quorum(configs: Config, c: set<nat>) {
    forall i :: 0 <= i < |configs| ==> |configs[i] * c| * 2 > |configs[i]|
  }

  lemma SubsetSize(a: set<nat>, b: set<nat>)
    requires a <= b
    ensures |a| <= |b|
  {
    assert b == a + (b - a);
  }

  lemma QuorumsMeet(configs: Config, a: set<nat>, b: set<nat>) returns (m: nat)
    requires configs != [] && Quorum(configs, a) && Quorum(configs, b)
    ensures m in a && m in b
  {
    var x, y := configs[0] * a, configs[0] * b;
    if x * y == {} {
      assert |x + y| == |x| + |y|;
      SubsetSize(x + y, configs[0]);
      assert false;
    }
    m :| m in x * y;
  }

  lemma QuorumGrows(configs: Config, a: set<nat>, b: set<nat>)
    requires Quorum(configs, a) && a <= b
    ensures Quorum(configs, b)
  {
    forall i | 0 <= i < |configs| ensures |configs[i] * b| * 2 > |configs[i]| {
      SubsetSize(configs[i] * a, configs[i] * b);
    }
  }

  /** Member `v` answered with a saved term of at most `term`. */
  ghost predicate Answered(answers: seq<(nat, Option<nat>)>, term: nat, v: nat) {
    exists i :: 0 <= i < |answers| && answers[i].0 == v && answers[i].1.Some? && answers[i].1.value <= term
  }

  /** The members whose answer, if any, was a saved term of at most `term`. */
  function Confirmers(answers: seq<(nat, Option<nat>)>, term: nat): set<nat> {
    if answers == [] then {}
    else
      var a := answers[|answers| - 1];
      Confirmers(answers[..|answers| - 1], term) + if a.1.Some? && a.1.value <= term then {a.0} else {}
  }

  lemma {:induction false} ConfirmersGrow(answers: seq<(nat, Option<nat>)>, term: nat, n: nat)
    requires n <= |answers|
    ensures Confirmers(answers[..n], term) <= Confirmers(answers, term)
    decreases |answers|
  {
    if n < |answers| {
      var front := answers[..|answers| - 1];
      assert front[..n] == answers[..n];
      ConfirmersGrow(front, term, n);
    } else {
      assert answers[..n] == answers;
    }
  }

  lemma {:induction false} ConfirmersAnswered(answers: seq<(nat, Option<nat>)>, term: nat, v: nat)
    ensures v in Confirmers(answers, term) <==> Answered(answers, term, v)
  {
    if answers != [] {
      var front, last := answers[..|answers| - 1], answers[|answers| - 1];
      ConfirmersAnswered(front, term, v);
      if Answered(answers, term, v) && !Answered(front, term, v) {
        var i :| 0 <= i < |answers| && answers[i].0 == v && answers[i].1.Some? && answers[i].1.value <= term;
      } else if Answered(front, term, v) {
        var i :| 0 <= i < |front| && front[i].0 == v && front[i].1.Some? && front[i].1.value <= term;
        assert answers[i] == front[i];
      }
    }
  }

  /** A set with this member and every one that answered with a saved term of at most `term`, and no other. */
  ghost predicate AllAnswered(me: nat, term: nat, answers: seq<(nat, Option<nat>)>, all: set<nat>) {
    forall v: nat :: v in all <==> v == me || Answered(answers, term, v)
  }

  /** The asking loop of a round, which stops at the first quorum: it confirms exactly when this member and
      all that answered with a saved term of at most `term` are one. */
  method Ask(configs: Config, me: nat, term: nat, answers: seq<(nat, Option<nat>)>) returns (ok: bool)
    ensures ok <==> Quorum(configs, {me} + Confirmers(answers, term))
    ensures forall all: set<nat> :: AllAnswered(me, term, answers, all) ==> (ok <==> Quorum(configs, all))
    ensures exists all: set<nat> :: AllAnswered(me, term, answers, all)
  {
    forall v: nat ensures v in Confirmers(answers, term) <==> Answered(answers, term, v) {
      ConfirmersAnswered(answers, term, v);
    }
    assert AllAnswered(me, term, answers, {me} + Confirmers(answers, term));
    forall all: set<nat> | AllAnswered(me, term, answers, all) ensures all == {me} + Confirmers(answers, term) {
    }
    var confirmed, i := {me}, 0;
    assert answers[..0] == [];
    while i < |answers| && !Quorum(configs, confirmed)
      invariant i <= |answers| && confirmed == {me} + Confirmers(answers[..i], term)
    {
      assert answers[..i + 1][..i] == answers[..i];
      var (id, answer) := answers[i];
      if answer.Some? && answer.value <= term { confirmed := confirmed + {id}; }
      i := i + 1;
    }
    ok := Quorum(configs, confirmed);
    if ok {
      ConfirmersGrow(answers, term, i);
      QuorumGrows(configs, confirmed, {me} + Confirmers(answers, term));
    } else {
      assert answers[..i] == answers;
    }
  }

  // ---------- What the log store notes ----------

  /** How an append keeps the first index of the newest term. */
  function NoteTerm(ts: (nat, nat), term: nat, index: nat): (nat, nat) {
    if term > ts.0 then (term, index) else ts
  }

  /** The same over the `(term, index)` of several entries. */
  function NoteAll(ts: (nat, nat), entries: seq<(nat, nat)>): (nat, nat) {
    if entries == [] then ts
    else NoteTerm(NoteAll(ts, entries[..|entries| - 1]), entries[|entries| - 1].0, entries[|entries| - 1].1)
  }

  /** With terms never falling along the log: what is noted is the newest term and, if the entries
      brought it, the index of the first of them in it. */
  lemma {:induction false} NotedIsFirst(ts: (nat, nat), entries: seq<(nat, nat)>) returns (k: nat)
    requires forall i, j :: 0 <= i < j < |entries| ==> entries[i].0 <= entries[j].0
    ensures k <= |entries| && forall i :: 0 <= i < |entries| ==> entries[i].0 <= NoteAll(ts, entries).0
    ensures k == |entries| ==> NoteAll(ts, entries) == ts
    ensures k < |entries| ==> NoteAll(ts, entries) == entries[k] && entries[k].0 > ts.0
    ensures k < |entries| ==> forall i :: 0 <= i < k ==> entries[i].0 < entries[k].0
    decreases |entries|
  {
    if entries == [] {
      k := 0;
    } else {
      var front, last := entries[..|entries| - 1], entries[|entries| - 1];
      k := NotedIsFirst(ts, front);
      if last.0 > NoteAll(ts, front).0 {
        k := |entries| - 1;
      } else if k == |front| {
        k := |entries|;
      }
    }
  }

  // ---------- The cluster ----------

  /** An elected leader: its first index, who voted, and whether that first entry is in its log yet. */
  datatype Lead = Lead(node: nat, start: nat, voters: set<nat>, blank: bool)

  /** A write answered by leader `id`, at `index`. */
  datatype Ack = Ack(id: nat, index: nat)

  /** A round: begun, then asking. `acks` is how many writes had been answered when it began. */
  datatype Round =
    | Begun(no: nat, acks: nat)
    | Asking(no: nat, acks: nat, term: nat, index: nat, confirmed: set<nat>)

  datatype Last = Last(no: nat, acks: nat, result: Option<nat>)

  /** A waiting read. `seen` is how many writes had been answered when it arrived. */
  datatype Read = Read(arrival: nat, seen: nat, index: Option<nat>)

  /** `saved` is the leader id of the saved vote. `ts` is the newest term in the log and its first index, as
      far as known, and `noted` whose entry that was. */
  datatype Member = Member(
    saved: nat, applied: nat, durable: nat, ts: (nat, nat), noted: nat,
    started: nat, round: Option<Round>, last: Option<Last>, waiting: map<nat, Read>)

  /** `terms` gives the term of every leader id. */
  datatype State = State(
    terms: nat -> nat, configs: Config, nodes: map<nat, Member>, led: map<nat, Lead>, committed: set<Ack>, acked: seq<Ack>)

  datatype Step =
    | SaveVote(n: nat, id: nat)
    | Elect(n: nat, id: nat, start: nat, voters: set<nat>)
    | Blank(id: nat)
    | Append(n: nat, id: nat, index: nat)
    | Truncate(n: nat, index: nat)
    | Fsync(n: nat, durable: nat)
    | Commit(id: nat, index: nat)
    | Apply(n: nat, applied: nat)
    | Answer(id: nat, index: nat)
    | Restart(n: nat, applied: nat, durable: nat)
    | Arrive(n: nat, r: nat)
    | BeginRound(n: nat)
    | ReadTerm(n: nat, id: nat)
    | Confirmed(n: nat, who: nat)
    | EndRound(n: nat)
    | Join(n: nat, r: nat)
    | Sole(n: nat, r: nat, id: nat, committed: nat)
    | Leave(n: nat, r: nat)

  /** The first index of `term`, if known. */
  function TermStart(m: Member, term: nat): nat { if m.ts.0 == term then m.ts.1 else 0 }

  /** Member `n` was elected as leader `id`. */
  predicate Leads(s: State, n: nat, id: nat) { id in s.led && s.led[id].node == n }

  /** `n` is the only voter. */
  predicate SoleVoter(configs: Config, n: nat) { configs == [{n}] }

  /** Everything leaders up to `id` committed lies below `index`. */
  predicate Above(committed: set<Ack>, id: nat, index: nat) {
    forall a <- committed :: a.id <= id ==> a.index < index
  }

  predicate Enabled(s: State, step: Step) {
    match step
    case SaveVote(n, id) => n in s.nodes && id >= s.nodes[n].saved
    // Leader Completeness, election side; a candidate is a voter and votes for itself first.
    case Elect(n, id, start, voters) =>
      && n in s.nodes && s.nodes[n].saved == id && s.terms(id) > 0 && id !in s.led && start > 0
      && (exists i :: 0 <= i < |s.configs| && n in s.configs[i])
      && Quorum(s.configs, voters) && (forall v <- voters :: v in s.nodes && s.nodes[v].saved >= id)
      && (forall a <- s.committed :: a.id < id ==> a.index < start)
    case Blank(id) =>
      && id in s.led && !s.led[id].blank && s.led[id].node in s.nodes
      && s.nodes[s.led[id].node].saved == id
    // Entries come from the leader whose vote the member saved. Those of a leader start at its first;
    // a leader appends after all it has; nobody else appends to a sole voter's log.
    case Append(n, id, index) =>
      && n in s.nodes && id in s.led && s.led[id].blank
      && s.led[id].start <= index && id <= s.nodes[n].saved && s.nodes[n].saved in s.led
      && (s.led[id].node == n && s.nodes[n].saved == id ==> Above(s.committed, id, index))
      && (SoleVoter(s.configs, n) ==> s.led[id].node == n && s.nodes[n].saved == id)
    // Nothing applied is truncated, and no write this member answered.
    case Truncate(n, index) =>
      n in s.nodes && s.nodes[n].applied <= index && forall a <- s.acked :: Leads(s, n, a.id) ==> a.index <= index
    case Fsync(n, durable) => n in s.nodes && s.nodes[n].durable <= durable
    // Leader Completeness, commit side.
    case Commit(id, index) =>
      && id in s.led && s.led[id].blank && s.led[id].start <= index
      && (forall l <- s.led :: l > id ==> index < s.led[l].start)
    case Apply(n, applied) => n in s.nodes && s.nodes[n].applied <= applied <= s.nodes[n].durable
    case Answer(id, index) =>
      && id in s.led && s.led[id].node in s.nodes && Ack(id, index) in s.committed
      && s.nodes[s.led[id].node].applied >= index
    case Restart(n, applied, durable) =>
      n in s.nodes && applied <= s.nodes[n].applied && s.nodes[n].durable <= durable
    case Arrive(n, r) => n in s.nodes && r !in s.nodes[n].waiting
    case BeginRound(n) => n in s.nodes && s.nodes[n].round.None?
    case ReadTerm(n, id) =>
      && n in s.nodes && s.nodes[n].round.Some? && s.nodes[n].round.value.Begun?
      && Leads(s, n, id) && s.terms(s.nodes[n].saved) == s.terms(id) && TermStart(s.nodes[n], s.terms(id)) > 0
    case Confirmed(n, who) =>
      && n in s.nodes && s.nodes[n].round.Some? && s.nodes[n].round.value.Asking?
      && who in s.nodes && s.terms(s.nodes[who].saved) <= s.nodes[n].round.value.term
    case EndRound(n) => n in s.nodes && s.nodes[n].round.Some?
    case Join(n, r) =>
      && n in s.nodes && r in s.nodes[n].waiting && s.nodes[n].round.None?
      && s.nodes[n].last.Some? && s.nodes[n].last.value.no > s.nodes[n].waiting[r].arrival
    case Sole(n, r, id, committed) =>
      n in s.nodes && r in s.nodes[n].waiting && SoleVoter(s.configs, n) && Leads(s, n, id)
    case Leave(n, r) => n in s.nodes && r in s.nodes[n].waiting
  }

  function Put(s: State, n: nat, m: Member): State { s.(nodes := s.nodes[n := m]) }

  /** The member notes an entry of leader `id`. */
  function Noted(terms: nat -> nat, m: Member, id: nat, index: nat): Member {
    if terms(id) > m.ts.0 then m.(ts := (terms(id), index), noted := id) else m
  }

  function RoundResult(terms: nat -> nat, configs: Config, m: Member): Option<nat>
    requires m.round.Some?
  {
    match m.round.value
    case Begun(_, _) => None
    case Asking(_, _, term, index, confirmed) =>
      if Quorum(configs, confirmed) && terms(m.saved) == term then Some(index) else None
  }

  function Do(s: State, step: Step): State
    requires Enabled(s, step)
  {
    match step
    case SaveVote(n, id) => Put(s, n, s.nodes[n].(saved := id))
    case Elect(n, id, start, voters) => s.(led := s.led[id := Lead(n, start, voters, false)])
    case Blank(id) =>
      var lead := s.led[id];
      Put(s.(led := s.led[id := lead.(blank := true)]), lead.node, Noted(s.terms, s.nodes[lead.node], id, lead.start))
    case Append(n, id, index) => Put(s, n, Noted(s.terms, s.nodes[n], id, index))
    case Truncate(n, index) =>
      var m := s.nodes[n];
      Put(s, n, m.(durable := if m.durable < index then m.durable else index,
                   ts := if m.ts.1 > index then (0, 0) else m.ts))
    case Fsync(n, durable) => Put(s, n, s.nodes[n].(durable := durable))
    case Commit(id, index) => s.(committed := s.committed + {Ack(id, index)})
    case Apply(n, applied) => Put(s, n, s.nodes[n].(applied := applied))
    case Answer(id, index) => s.(acked := s.acked + [Ack(id, index)])
    case Restart(n, applied, durable) =>
      Put(s, n, Member(s.nodes[n].saved, applied, durable, (0, 0), 0, 0, None, None, map[]))
    case Arrive(n, r) =>
      var m := s.nodes[n];
      Put(s, n, m.(waiting := m.waiting[r := Read(m.started, |s.acked|, None)]))
    case BeginRound(n) =>
      var m := s.nodes[n];
      Put(s, n, m.(started := m.started + 1, round := Some(Begun(m.started + 1, |s.acked|))))
    case ReadTerm(n, id) =>
      var m := s.nodes[n];
      var round, term := m.round.value, s.terms(id);
      Put(s, n, m.(round := Some(Asking(round.no, round.acks, term, TermStart(m, term), {n}))))
    case Confirmed(n, who) =>
      var m := s.nodes[n];
      var round := m.round.value;
      Put(s, n, m.(round := Some(round.(confirmed := round.confirmed + {who}))))
    case EndRound(n) =>
      var m := s.nodes[n];
      Put(s, n, m.(round := None, last := Some(Last(m.round.value.no, m.round.value.acks, RoundResult(s.terms, s.configs, m)))))
    case Join(n, r) =>
      var m := s.nodes[n];
      Put(s, n, m.(waiting := m.waiting[r := m.waiting[r].(index := m.last.value.result)]))
    case Sole(n, r, id, committed) =>
      var m := s.nodes[n];
      var known := TermStart(m, s.terms(id));
      var index := if known > 0 then known else if committed > m.durable then committed else m.durable;
      Put(s, n, m.(waiting := m.waiting[r := m.waiting[r].(index := Some(index))]))
    case Leave(n, r) => Put(s, n, s.nodes[n].(waiting := s.nodes[n].waiting - {r}))
  }

  ghost predicate Reaches(s: State, steps: seq<Step>, t: State)
    decreases |steps|
  {
    if steps == [] then s == t else Enabled(s, steps[0]) && Reaches(Do(s, steps[0]), steps[1..], t)
  }

  function Booted(saved: nat): Member { Member(saved, 0, 0, (0, 0), 0, 0, None, None, map[]) }

  /** Leader ids are in the order of their terms. */
  ghost predicate Ordered(terms: nat -> nat) { forall i: nat, j: nat :: i <= j ==> terms(i) <= terms(j) }

  /** A cluster that has not elected anyone. */
  ghost predicate Init(s: State) {
    && Ordered(s.terms) && s.configs != [] && s.led == map[] && s.committed == {} && s.acked == []
    && forall n <- s.nodes :: s.nodes[n] == Booted(s.nodes[n].saved)
  }

  // ---------- The log store's notes are the steps' ----------

  /** The appends of several entries, `(leader id, index)`, to member `n`'s log, one by one. */
  function Appends(n: nat, entries: seq<(nat, nat)>): seq<Step> {
    seq(|entries|, i requires 0 <= i < |entries| => Append(n, entries[i].0, entries[i].1))
  }

  /** The same entries as `(term, index)`. */
  function InTerms(terms: nat -> nat, entries: seq<(nat, nat)>): seq<(nat, nat)> {
    seq(|entries|, i requires 0 <= i < |entries| => (terms(entries[i].0), entries[i].1))
  }

  lemma {:induction false} NoteFirst(ts: (nat, nat), entries: seq<(nat, nat)>)
    requires entries != []
    ensures NoteAll(ts, entries) == NoteAll(NoteTerm(ts, entries[0].0, entries[0].1), entries[1..])
    decreases |entries|
  {
    var front := entries[..|entries| - 1];
    if front != [] {
      NoteFirst(ts, front);
      assert entries[1..][..|entries| - 2] == front[1..];
    } else {
      assert entries[..0] == [];
    }
  }

  lemma {:induction false} AppendsNote(s: State, n: nat, entries: seq<(nat, nat)>, t: State)
    requires n in s.nodes && Reaches(s, Appends(n, entries), t)
    ensures n in t.nodes && t.terms == s.terms
    ensures t.nodes[n] == s.nodes[n].(ts := NoteAll(s.nodes[n].ts, InTerms(s.terms, entries)), noted := t.nodes[n].noted)
    decreases |entries|
  {
    if entries != [] {
      NoteFirst(s.nodes[n].ts, InTerms(s.terms, entries));
      assert InTerms(s.terms, entries)[1..] == InTerms(s.terms, entries[1..]);
      assert Appends(n, entries)[1..] == Appends(n, entries[1..]);
      AppendsNote(Do(s, Appends(n, entries)[0]), n, entries[1..], t);
    }
  }

  /** What the log store notes, updated in place. `Shows` says it is what the cluster's state has for a
      member, and every method keeps it through the member's steps. */
  class LogProgress {
    var lastDurable: nat
    var voteTerm: nat
    var ts: (nat, nat)

    predicate Shows(s: State, n: nat)
      reads this
    {
      n in s.nodes && s.terms(s.nodes[n].saved) == voteTerm && s.nodes[n].durable == lastDurable && s.nodes[n].ts == ts
    }

    constructor ()
      ensures forall s: State, n: nat :: n in s.nodes && s.nodes[n] == Booted(0) && s.terms(0) == 0 ==> Shows(s, n)
    {
      lastDurable, voteTerm, ts := 0, 0, (0, 0);
    }

    method NoteAppend(entries: seq<(nat, nat)>)
      modifies this`ts
      ensures ts == NoteAll(old(ts), entries)
      ensures forall s: State, n: nat, of: seq<(nat, nat)>, t: State ::
        Reaches(s, Appends(n, of), t) && InTerms(s.terms, of) == entries && old(Shows(s, n)) ==> Shows(t, n)
    {
      var i := 0;
      while i < |entries|
        invariant i <= |entries| && ts == NoteAll(old(ts), entries[..i])
      {
        assert entries[..i + 1][..i] == entries[..i];
        if entries[i].0 > ts.0 { ts := entries[i]; }
        i := i + 1;
      }
      assert entries[..i] == entries;
      forall s: State, n: nat, of: seq<(nat, nat)>, t: State
        | Reaches(s, Appends(n, of), t) && InTerms(s.terms, of) == entries && old(Shows(s, n))
        ensures Shows(t, n)
      {
        AppendsNote(s, n, of, t);
      }
    }

    method NoteTruncate(index: nat)
      modifies this`ts, this`lastDurable
      ensures lastDurable <= index && lastDurable <= old(lastDurable)
      ensures lastDurable == index || lastDurable == old(lastDurable)
      ensures ts == if old(ts).1 > index then (0, 0) else old(ts)
      ensures forall s: State, n: nat :: Enabled(s, Truncate(n, index)) && old(Shows(s, n)) ==>
        Shows(Do(s, Truncate(n, index)), n)
    {
      if lastDurable > index { lastDurable := index; }
      if ts.1 > index { ts := (0, 0); }
    }

    /** A saved vote only raises the term. */
    method NoteVote(term: nat)
      modifies this`voteTerm
      ensures voteTerm >= term && voteTerm >= old(voteTerm) && (voteTerm == term || voteTerm == old(voteTerm))
      ensures forall s: State, n: nat, id: nat ::
        Enabled(s, SaveVote(n, id)) && Ordered(s.terms) && s.terms(id) == term && old(Shows(s, n)) ==>
          Shows(Do(s, SaveVote(n, id)), n)
    {
      if term > voteTerm { voteTerm := term; }
    }

    /** A finished fsync only raises what is durable. */
    method RaiseDurable(to: nat)
      modifies this`lastDurable
      ensures lastDurable >= to && lastDurable >= old(lastDurable)
      ensures lastDurable == to || lastDurable == old(lastDurable)
      ensures forall s: State, n: nat :: Enabled(s, Fsync(n, to)) && old(Shows(s, n)) ==> Shows(Do(s, Fsync(n, to)), n)
    {
      if to > lastDurable { lastDurable := to; }
    }
  }

  // ---------- The asking loop is a run of steps ----------

  /** Every answer is the term of the vote its member has saved. */
  ghost predicate Truthful(s: State, answers: seq<(nat, Option<nat>)>) {
    forall i :: 0 <= i < |answers| && answers[i].1.Some? ==>
      answers[i].0 in s.nodes && answers[i].1.value == s.terms(s.nodes[answers[i].0].saved)
  }

  /** A confirmation for each answer of at most `term`, in order. */
  function Confirms(n: nat, term: nat, answers: seq<(nat, Option<nat>)>): seq<Step> {
    if answers == [] then []
    else (if answers[0].1.Some? && answers[0].1.value <= term then [Confirmed(n, answers[0].0)] else [])
         + Confirms(n, term, answers[1..])
  }

  predicate IsAsking(s: State, n: nat) { n in s.nodes && s.nodes[n].round.Some? && s.nodes[n].round.value.Asking? }

  /** The same state with other members confirmed. */
  function WithConfirmed(s: State, n: nat, c: set<nat>): State
    requires IsAsking(s, n)
  {
    Put(s, n, s.nodes[n].(round := Some(s.nodes[n].round.value.(confirmed := c))))
  }

  lemma AnsweredFirst(answers: seq<(nat, Option<nat>)>, term: nat, v: nat)
    requires answers != []
    ensures Answered(answers, term, v) <==>
      (answers[0].0 == v && answers[0].1.Some? && answers[0].1.value <= term) || Answered(answers[1..], term, v)
  {
    if Answered(answers[1..], term, v) {
      var i :| 0 <= i < |answers[1..]| && answers[1..][i].0 == v && answers[1..][i].1.Some? && answers[1..][i].1.value <= term;
      assert answers[i + 1] == answers[1..][i];
    }
    if Answered(answers, term, v) {
      var i :| 0 <= i < |answers| && answers[i].0 == v && answers[i].1.Some? && answers[i].1.value <= term;
      assert i > 0 ==> answers[1..][i - 1] == answers[i];
    }
  }

  lemma {:induction false} AnswersConfirm(s: State, n: nat, answers: seq<(nat, Option<nat>)>) returns (c: set<nat>)
    requires IsAsking(s, n) && Truthful(s, answers)
    ensures var r := s.nodes[n].round.value;
            && Reaches(s, Confirms(n, r.term, answers), WithConfirmed(s, n, c))
            && forall v: nat :: v in c <==> v in r.confirmed || Answered(answers, r.term, v)
    decreases |answers|
  {
    var r := s.nodes[n].round.value;
    if answers == [] {
      c := r.confirmed;
      assert WithConfirmed(s, n, c) == s;
    } else {
      var (who, answer) := answers[0];
      forall i | 0 <= i < |answers[1..]| && answers[1..][i].1.Some?
        ensures answers[1..][i].0 in s.nodes && answers[1..][i].1.value == s.terms(s.nodes[answers[1..][i].0].saved)
      {
        assert answers[1..][i] == answers[i + 1];
      }
      forall v: nat { AnsweredFirst(answers, r.term, v); }
      if answer.Some? && answer.value <= r.term {
        var t := Do(s, Confirmed(n, who));
        assert t == WithConfirmed(s, n, r.confirmed + {who});
        c := AnswersConfirm(t, n, answers[1..]);
        assert WithConfirmed(t, n, c) == WithConfirmed(s, n, c);
        assert Confirms(n, r.term, answers)[1..] == Confirms(n, r.term, answers[1..]);
      } else {
        c := AnswersConfirm(s, n, answers[1..]);
        assert [] + Confirms(n, r.term, answers[1..]) == Confirms(n, r.term, answers[1..]);
      }
    }
  }

  /** A round asked from its start: the members counted are those the asking loop counts, and the round ends
      with its index exactly if they are a quorum and the member's own saved term is still the round's. */
  lemma RoundDecides(s: State, n: nat, answers: seq<(nat, Option<nat>)>, all: set<nat>)
    requires IsAsking(s, n) && s.nodes[n].round.value.confirmed == {n} && Truthful(s, answers)
    requires AllAnswered(n, s.nodes[n].round.value.term, answers, all)
    ensures var r := s.nodes[n].round.value;
            && Reaches(s, Confirms(n, r.term, answers), WithConfirmed(s, n, all))
            && Enabled(WithConfirmed(s, n, all), EndRound(n))
            && Do(WithConfirmed(s, n, all), EndRound(n)).nodes[n].last.value.result
               == if Quorum(s.configs, all) && s.terms(s.nodes[n].saved) == r.term then Some(r.index) else None
  {
    var c := AnswersConfirm(s, n, answers);
    assert c == all;
  }

  // ---------- Invariants ----------

  /** The elected leaders: quorums of voters that have all saved the vote, committed entries of earlier
      leaders below the first index, and nothing committed before that first entry is in the log. */
  ghost predicate LedInv(s: State) {
    && s.configs != [] && Ordered(s.terms)
    && (forall l :: LeadInv(s, l))
    && (forall a <- s.committed :: a.id in s.led && s.led[a.id].blank)
    && (forall k :: 0 <= k < |s.acked| ==> s.acked[k] in s.committed)
  }

  ghost predicate LeadInv(s: State, l: nat) {
    l in s.led ==>
    var lead := s.led[l];
    && s.terms(l) > 0 && lead.start > 0 && lead.node in s.nodes && s.nodes[lead.node].saved >= l
    && Quorum(s.configs, lead.voters)
    && (forall v <- lead.voters :: v in s.nodes && s.nodes[v].saved >= l)
    && (exists i :: 0 <= i < |s.configs| && lead.node in s.configs[i])
    && (forall a <- s.committed :: a.id < l ==> a.index < lead.start)
  }

  /** A read served at `index`, or at what is applied now, reflects the write. */
  predicate Covers(a: Ack, index: nat, applied: nat) { a.index <= index || a.index <= applied }

  /** Another leader was elected in the term of leader `id`. */
  ghost predicate Twin(terms: nat -> nat, ids: set<nat>, id: nat) {
    exists l <- ids :: l != id && terms(l) == terms(id)
  }

  /** The same, except for writes of a leader that is not the only one of its term. */
  ghost predicate Sees(terms: nat -> nat, ids: set<nat>, a: Ack, index: nat, applied: nat) {
    Covers(a, index, applied) || Twin(terms, ids, a.id)
  }

  ghost predicate SeesFirst(terms: nat -> nat, ids: set<nat>, acked: seq<Ack>, n: nat, index: nat, applied: nat)
    requires n <= |acked|
  {
    forall k :: 0 <= k < n ==> Sees(terms, ids, acked[k], index, applied)
  }

  ghost predicate CoversFirst(acked: seq<Ack>, n: nat, index: nat, applied: nat)
    requires n <= |acked|
  {
    forall k :: 0 <= k < n ==> Covers(acked[k], index, applied)
  }

  /** What a member's first index of its own term covers. */
  ghost predicate TermInv(terms: nat -> nat, led: map<nat, Lead>, acked: seq<Ack>, n: nat, m: Member) {
    m.ts.1 > 0 ==>
      && m.noted in led && m.ts.0 == terms(m.noted) && m.noted <= m.saved && led[m.noted].start <= m.ts.1
      && (m.ts.0 == terms(m.saved) && led[m.noted].node == n ==>
            forall k :: 0 <= k < |acked| ==>
              acked[k].id <= m.noted ==> Sees(terms, led.Keys, acked[k], m.ts.1, m.applied))
  }

  /** A sole voter answered every write itself. */
  ghost predicate SoleInv(configs: Config, led: map<nat, Lead>, acked: seq<Ack>, n: nat, m: Member) {
    && m.applied <= m.durable
    && (forall k :: 0 <= k < |acked| && acked[k].id in led && led[acked[k].id].node == n ==> acked[k].index <= m.durable)
    && (SoleVoter(configs, n) && m.ts.1 > 0 ==> CoversFirst(acked, |acked|, m.ts.1, m.applied))
  }

  ghost predicate RoundInv(terms: nat -> nat, led: map<nat, Lead>, acked: seq<Ack>, m: Member) {
    m.round.Some? ==>
      var r := m.round.value;
      && r.no <= m.started && r.acks <= |acked|
      && (r.Asking? ==>
            && (forall k :: 0 <= k < r.acks ==>
                  terms(acked[k].id) <= r.term ==> Sees(terms, led.Keys, acked[k], r.index, m.applied))
            && (forall v <- r.confirmed :: NotAhead(terms, led, acked, r.acks, r.term, v)))
  }

  /** `v` did not vote for any leader of a newer term that had answered one of the first `n` writes. */
  ghost predicate NotAhead(terms: nat -> nat, led: map<nat, Lead>, acked: seq<Ack>, n: nat, term: nat, v: nat)
    requires n <= |acked|
  {
    forall k :: 0 <= k < n ==> acked[k].id in led && (v in led[acked[k].id].voters ==> terms(acked[k].id) <= term)
  }

  ghost predicate LastInv(terms: nat -> nat, ids: set<nat>, acked: seq<Ack>, m: Member) {
    m.last.Some? ==>
      var l := m.last.value;
      && l.no <= m.started && l.acks <= |acked|
      && (l.result.Some? ==> SeesFirst(terms, ids, acked, l.acks, l.result.value, m.applied))
  }

  ghost predicate ReadInv(terms: nat -> nat, ids: set<nat>, acked: seq<Ack>, m: Member, r: Read) {
    && r.seen <= |acked| && r.arrival <= m.started
    && (m.round.Some? && r.arrival < m.round.value.no ==> r.seen <= m.round.value.acks)
    && (m.last.Some? && r.arrival < m.last.value.no ==> r.seen <= m.last.value.acks)
    && (r.index.Some? ==> SeesFirst(terms, ids, acked, r.seen, r.index.value, m.applied))
  }

  ghost predicate ReadsInv(terms: nat -> nat, ids: set<nat>, acked: seq<Ack>, m: Member) {
    forall r <- m.waiting :: ReadInv(terms, ids, acked, m, m.waiting[r])
  }

  ghost predicate MemberInv(s: State, n: nat) {
    n in s.nodes ==>
    var m := s.nodes[n];
    && TermInv(s.terms, s.led, s.acked, n, m)
    && SoleInv(s.configs, s.led, s.acked, n, m)
    && RoundInv(s.terms, s.led, s.acked, m)
    && LastInv(s.terms, s.led.Keys, s.acked, m)
    && ReadsInv(s.terms, s.led.Keys, s.acked, m)
  }

  ghost predicate Inv(s: State) {
    LedInv(s) && forall n :: MemberInv(s, n)
  }

  lemma InitInv(s: State)
    requires Init(s)
    ensures Inv(s)
  {
  }

  // ---------- Every step keeps them ----------

  /** Steps that change neither the leaders nor what is committed or answered, and one member only. */
  ghost predicate OneMember(s: State, t: State, n: nat) {
    && n in s.nodes && n in t.nodes && t == Put(s, n, t.nodes[n])
    && t.nodes[n].saved >= s.nodes[n].saved
  }

  lemma OneMemberKeepsInv(s: State, t: State, n: nat)
    requires Inv(s) && OneMember(s, t, n) && MemberInv(t, n)
    ensures Inv(t)
  {
    forall x ensures MemberInv(t, x) {
      if x != n && x in t.nodes { assert MemberInv(s, x) && t.nodes[x] == s.nodes[x]; }
    }
    forall l ensures LeadInv(t, l) {
      assert LeadInv(s, l);
    }
  }

  /** What the append notes: entries a member appends after its own leadership's come from itself, or from
      another leader of the same term. */
  lemma AppendNotes(s: State, step: Step)
    requires Inv(s) && Enabled(s, step) && step.Append?
    ensures var t := Do(s, step);
            TermInv(t.terms, t.led, t.acked, step.n, t.nodes[step.n])
  {
    var m, id := s.nodes[step.n], step.id;
    assert MemberInv(s, step.n) && LeadInv(s, id);
    forall k | 0 <= k < |s.acked| && s.acked[k].id <= id && s.terms(m.saved) == s.terms(id) && s.led[id].node == step.n
      ensures Sees(s.terms, s.led.Keys, s.acked[k], step.index, m.applied)
    {
      assert s.acked[k] in s.committed;
      if m.saved != id { assert Twin(s.terms, s.led.Keys, id); }
    }
  }

  /** A leader's own append lies above every write answered up to its term. */
  lemma AppendKeepsInv(s: State, step: Step)
    requires Inv(s) && Enabled(s, step) && step.Append?
    ensures Inv(Do(s, step))
  {
    var t, n := Do(s, step), step.n;
    assert MemberInv(s, n);
    SoleAnswersAll(s, n);
    AppendNotes(s, step);
    OneMemberKeepsInv(s, t, n);
  }

  /** Where there is one voter, every write was answered by it, in a term it has saved. */
  lemma SoleAnswersAll(s: State, n: nat)
    requires LedInv(s) && n in s.nodes
    ensures SoleVoter(s.configs, n) ==>
      forall k :: 0 <= k < |s.acked| ==> Leads(s, n, s.acked[k].id) && s.acked[k].id <= s.nodes[n].saved
  {
    forall k | 0 <= k < |s.acked| && SoleVoter(s.configs, n)
      ensures Leads(s, n, s.acked[k].id) && s.acked[k].id <= s.nodes[n].saved
    {
      assert s.acked[k] in s.committed && LeadInv(s, s.acked[k].id);
    }
  }

  lemma SaveVoteKeepsInv(s: State, step: Step)
    requires Inv(s) && Enabled(s, step) && step.SaveVote?
    ensures Inv(Do(s, step))
  {
    assert MemberInv(s, step.n);
    OneMemberKeepsInv(s, Do(s, step), step.n);
  }

  lemma LogStepKeepsInv(s: State, step: Step)
    requires Inv(s) && Enabled(s, step) && (step.Fsync? || step.Apply? || step.Restart?)
    ensures Inv(Do(s, step))
  {
    assert MemberInv(s, step.n);
    OneMemberKeepsInv(s, Do(s, step), step.n);
  }

  lemma TruncateKeepsInv(s: State, step: Step)
    requires Inv(s) && Enabled(s, step) && step.Truncate?
    ensures Inv(Do(s, step))
  {
    assert MemberInv(s, step.n);
    OneMemberKeepsInv(s, Do(s, step), step.n);
  }

  lemma TwinStays(terms: nat -> nat, ids: set<nat>, more: set<nat>, id: nat)
    requires Twin(terms, ids, id) && ids <= more
    ensures Twin(terms, more, id)
  {
  }

  lemma ElectKeepsMember(s: State, step: Step, x: nat)
    requires Inv(s) && Enabled(s, step) && step.Elect? && x in s.nodes
    ensures MemberInv(Do(s, step), x)
  {
    var t, m := Do(s, step), s.nodes[x];
    assert MemberInv(s, x);
    forall a: Ack, index: nat | Sees(s.terms, s.led.Keys, a, index, m.applied)
      ensures Sees(t.terms, t.led.Keys, a, index, m.applied)
    {
      if Twin(s.terms, s.led.Keys, a.id) { TwinStays(s.terms, s.led.Keys, t.led.Keys, a.id); }
    }
    assert TermInv(t.terms, t.led, t.acked, x, m);
    assert RoundInv(t.terms, t.led, t.acked, m);
    assert ReadsInv(t.terms, t.led.Keys, t.acked, m);
  }

  lemma ElectKeepsInv(s: State, step: Step)
    requires Inv(s) && Enabled(s, step) && step.Elect?
    ensures Inv(Do(s, step))
  {
    var t := Do(s, step);
    forall l ensures LeadInv(t, l) {
      if l != step.id { assert LeadInv(s, l); }
    }
    forall x ensures MemberInv(t, x) {
      if x in s.nodes { ElectKeepsMember(s, step, x); }
    }
  }

  lemma BlankKeepsInv(s: State, step: Step)
    requires Inv(s) && Enabled(s, step) && step.Blank?
    ensures Inv(Do(s, step))
  {
    var t := Do(s, step);
    assert t.led.Keys == s.led.Keys;
    forall l ensures LeadInv(t, l) {
      assert LeadInv(s, l);
    }
    forall x ensures MemberInv(t, x) {
      if x in s.nodes { BlankKeepsMember(s, step, x); }
    }
  }

  lemma BlankKeepsMember(s: State, step: Step, x: nat)
    requires Inv(s) && Enabled(s, step) && step.Blank? && x in s.nodes
    ensures MemberInv(Do(s, step), x)
  {
    var t, m := Do(s, step), s.nodes[x];
    assert t.led.Keys == s.led.Keys;
    assert MemberInv(s, x);
    BlankNotes(s, step, x);
    assert RoundInv(t.terms, t.led, t.acked, t.nodes[x]);
  }

  lemma BlankNotes(s: State, step: Step, x: nat)
    requires Inv(s) && Enabled(s, step) && step.Blank? && x in s.nodes
    ensures var t := Do(s, step);
            TermInv(t.terms, t.led, t.acked, x, t.nodes[x]) && SoleInv(t.configs, t.led, t.acked, x, t.nodes[x])
  {
    var t := Do(s, step);
    assert t.led.Keys == s.led.Keys;
    assert MemberInv(s, x) && LeadInv(s, step.id);
    SoleAnswersAll(s, x);
    forall k | 0 <= k < |s.acked| && s.acked[k].id <= step.id
      ensures s.acked[k].index < s.led[step.id].start
    {
      assert s.acked[k] in s.committed;
    }
  }

  lemma CommitKeepsInv(s: State, step: Step)
    requires Inv(s) && Enabled(s, step) && step.Commit?
    ensures Inv(Do(s, step))
  {
    var t := Do(s, step);
    forall l ensures LeadInv(t, l) {
      assert LeadInv(s, l);
    }
    forall x ensures MemberInv(t, x) {
      assert MemberInv(s, x);
    }
  }

  lemma AnswerKeepsInv(s: State, step: Step)
    requires Inv(s) && Enabled(s, step) && step.Answer?
    ensures Inv(Do(s, step))
  {
    var t := Do(s, step);
    forall l ensures LeadInv(t, l) {
      assert LeadInv(s, l);
    }
    forall x ensures MemberInv(t, x) {
      if x in s.nodes { AnswerKeepsMember(s, step, x); }
    }
  }

  lemma AnswerKeepsMember(s: State, step: Step, x: nat)
    requires Inv(s) && Enabled(s, step) && step.Answer? && x in s.nodes
    ensures MemberInv(Do(s, step), x)
  {
    var t, m := Do(s, step), s.nodes[x];
    assert MemberInv(s, x);
    AnswerKeepsTerm(s, step, x);
    assert RoundInv(t.terms, t.led, t.acked, m);
    forall r <- m.waiting ensures ReadInv(t.terms, t.led.Keys, t.acked, m, m.waiting[r]) {
      assert ReadInv(s.terms, s.led.Keys, s.acked, m, m.waiting[r]);
    }
  }

  lemma AnswerKeepsTerm(s: State, step: Step, x: nat)
    requires Inv(s) && Enabled(s, step) && step.Answer? && x in s.nodes
    ensures var t := Do(s, step);
            TermInv(t.terms, t.led, t.acked, x, t.nodes[x]) && SoleInv(t.configs, t.led, t.acked, x, t.nodes[x])
  {
    var m := s.nodes[x];
    assert MemberInv(s, x) && LeadInv(s, step.id);
    if m.ts.1 > 0 { assert LeadInv(s, m.noted); }
  }

  lemma BeginRoundKeepsInv(s: State, step: Step)
    requires Inv(s) && Enabled(s, step) && step.BeginRound?
    ensures Inv(Do(s, step))
  {
    assert MemberInv(s, step.n);
    OneMemberKeepsInv(s, Do(s, step), step.n);
  }

  lemma ArriveKeepsInv(s: State, step: Step)
    requires Inv(s) && Enabled(s, step) && step.Arrive?
    ensures Inv(Do(s, step))
  {
    assert MemberInv(s, step.n);
    OneMemberKeepsInv(s, Do(s, step), step.n);
  }

  lemma LeaveKeepsInv(s: State, step: Step)
    requires Inv(s) && Enabled(s, step) && step.Leave?
    ensures Inv(Do(s, step))
  {
    assert MemberInv(s, step.n);
    OneMemberKeepsInv(s, Do(s, step), step.n);
  }

  lemma JoinKeepsInv(s: State, step: Step)
    requires Inv(s) && Enabled(s, step) && step.Join?
    ensures Inv(Do(s, step))
  {
    assert MemberInv(s, step.n);
    OneMemberKeepsInv(s, Do(s, step), step.n);
  }

  /** Whoever answers a term at most the leader's did not vote for a newer leader. */
  lemma AnswererNotAhead(s: State, who: nat, n: nat, term: nat)
    requires LedInv(s) && who in s.nodes && s.terms(s.nodes[who].saved) <= term && n <= |s.acked|
    ensures NotAhead(s.terms, s.led, s.acked, n, term, who)
  {
    forall k | 0 <= k < n
      ensures s.acked[k].id in s.led && (who in s.led[s.acked[k].id].voters ==> s.terms(s.acked[k].id) <= term)
    {
      assert s.acked[k] in s.committed && LeadInv(s, s.acked[k].id);
    }
  }

  /** The first index of a leader's term covers every write answered in it or in earlier ones, except by
      one of several leaders of a term. */
  lemma TermCovers(s: State, n: nat, id: nat, k: nat)
    requires Inv(s) && n in s.nodes && k < |s.acked| && Leads(s, n, id)
    requires s.terms(s.nodes[n].saved) == s.terms(id) && TermStart(s.nodes[n], s.terms(id)) > 0
    requires s.terms(s.acked[k].id) <= s.terms(id)
    ensures Sees(s.terms, s.led.Keys, s.acked[k], TermStart(s.nodes[n], s.terms(id)), s.nodes[n].applied)
  {
    var noted, of := s.nodes[n].noted, s.acked[k].id;
    assert MemberInv(s, n) && s.acked[k] in s.committed && LeadInv(s, noted);
    if of > noted || (of == noted && noted != id) { assert Twin(s.terms, s.led.Keys, of); }
  }

  lemma ReadTermKeepsInv(s: State, step: Step)
    requires Inv(s) && Enabled(s, step) && step.ReadTerm?
    ensures Inv(Do(s, step))
  {
    var m := s.nodes[step.n];
    assert MemberInv(s, step.n);
    AnswererNotAhead(s, step.n, m.round.value.acks, s.terms(step.id));
    forall k | 0 <= k < m.round.value.acks && s.terms(s.acked[k].id) <= s.terms(step.id)
      ensures Sees(s.terms, s.led.Keys, s.acked[k], TermStart(m, s.terms(step.id)), m.applied)
    {
      TermCovers(s, step.n, step.id, k);
    }
    OneMemberKeepsInv(s, Do(s, step), step.n);
  }

  lemma ConfirmedKeepsInv(s: State, step: Step)
    requires Inv(s) && Enabled(s, step) && step.Confirmed?
    ensures Inv(Do(s, step))
  {
    var m := s.nodes[step.n];
    assert MemberInv(s, step.n);
    AnswererNotAhead(s, step.who, m.round.value.acks, m.round.value.term);
    OneMemberKeepsInv(s, Do(s, step), step.n);
  }

  /** A quorum of answerers excludes every newer leader that had answered a write by the time the round
      began. */
  lemma QuorumExcludesNewer(s: State, acks: nat, term: nat, confirmed: set<nat>)
    requires LedInv(s) && acks <= |s.acked| && Quorum(s.configs, confirmed)
    requires forall v <- confirmed :: NotAhead(s.terms, s.led, s.acked, acks, term, v)
    ensures forall k :: 0 <= k < acks ==> s.terms(s.acked[k].id) <= term
  {
    forall k | 0 <= k < acks ensures s.terms(s.acked[k].id) <= term {
      assert s.acked[k] in s.committed && LeadInv(s, s.acked[k].id);
      var v := QuorumsMeet(s.configs, confirmed, s.led[s.acked[k].id].voters);
      assert NotAhead(s.terms, s.led, s.acked, acks, term, v);
    }
  }

  lemma EndRoundKeepsInv(s: State, step: Step)
    requires Inv(s) && Enabled(s, step) && step.EndRound?
    ensures Inv(Do(s, step))
  {
    var m := s.nodes[step.n];
    assert MemberInv(s, step.n);
    if RoundResult(s.terms, s.configs, m).Some? {
      var r := m.round.value;
      QuorumExcludesNewer(s, r.acks, r.term, r.confirmed);
    }
    OneMemberKeepsInv(s, Do(s, step), step.n);
  }

  lemma SoleKeepsInv(s: State, step: Step)
    requires Inv(s) && Enabled(s, step) && step.Sole?
    ensures Inv(Do(s, step))
  {
    assert MemberInv(s, step.n);
    SoleAnswersAll(s, step.n);
    OneMemberKeepsInv(s, Do(s, step), step.n);
  }

  lemma StepKeepsInv(s: State, step: Step)
    requires Inv(s) && Enabled(s, step)
    ensures Inv(Do(s, step))
  {
    match step
    case Append(_, _, _) => AppendKeepsInv(s, step);
    case Elect(_, _, _, _) => ElectKeepsInv(s, step);
    case Blank(_) => BlankKeepsInv(s, step);
    case Commit(_, _) => CommitKeepsInv(s, step);
    case Answer(_, _) => AnswerKeepsInv(s, step);
    case Truncate(_, _) => TruncateKeepsInv(s, step);
    case Arrive(_, _) => ArriveKeepsInv(s, step);
    case BeginRound(_) => BeginRoundKeepsInv(s, step);
    case Join(_, _) => JoinKeepsInv(s, step);
    case Leave(_, _) => LeaveKeepsInv(s, step);
    case ReadTerm(_, _) => ReadTermKeepsInv(s, step);
    case Confirmed(_, _) => ConfirmedKeepsInv(s, step);
    case EndRound(_) => EndRoundKeepsInv(s, step);
    case Sole(_, _, _, _) => SoleKeepsInv(s, step);
    case SaveVote(_, _) => SaveVoteKeepsInv(s, step);
    case _ => LogStepKeepsInv(s, step);
  }

  lemma {:induction false} EveryRunKeepsInv(s: State, steps: seq<Step>, t: State)
    requires Inv(s) && Reaches(s, steps, t)
    ensures Inv(t)
    decreases |steps|
  {
    if steps != [] {
      StepKeepsInv(s, steps[0]);
      EveryRunKeepsInv(Do(s, steps[0]), steps[1..], t);
    }
  }

  /** A read is released once the state machine has applied up to its index. */
  predicate Released(s: State, n: nat, r: nat) {
    && n in s.nodes && r in s.nodes[n].waiting && s.nodes[n].waiting[r].index.Some?
    && s.nodes[n].applied >= s.nodes[n].waiting[r].index.value
  }

  /** In every run, a read released by either local path is served from a state that has applied every
      write answered before the read arrived, by any leader that is the only one of its term. */
  lemma ReleasedReadMissesOnlyTwins(s: State, steps: seq<Step>, t: State, n: nat, r: nat)
    requires Init(s) && Reaches(s, steps, t) && Released(t, n, r)
    ensures var read := t.nodes[n].waiting[r];
            read.seen <= |t.acked| && forall k :: 0 <= k < read.seen ==>
              t.acked[k].index <= t.nodes[n].applied || Twin(t.terms, t.led.Keys, t.acked[k].id)
  {
    InitInv(s);
    EveryRunKeepsInv(s, steps, t);
    assert MemberInv(t, n) && ReadInv(t.terms, t.led.Keys, t.acked, t.nodes[n], t.nodes[n].waiting[r]);
  }

  /** No two of the leaders are of one term. */
  ghost predicate OneATerm(terms: nat -> nat, ids: set<nat>) {
    forall k <- ids, l <- ids :: terms(k) == terms(l) ==> k == l
  }

  /** So with at most one leader a term, a released read sees every write answered, by any leader, before it
      arrived. */
  lemma ReleasedReadSeesEveryAck(s: State, steps: seq<Step>, t: State, n: nat, r: nat)
    requires Init(s) && Reaches(s, steps, t) && Released(t, n, r) && OneATerm(t.terms, t.led.Keys)
    ensures var read := t.nodes[n].waiting[r];
            read.seen <= |t.acked| && forall k :: 0 <= k < read.seen ==> t.acked[k].index <= t.nodes[n].applied
  {
    ReleasedReadMissesOnlyTwins(s, steps, t, n, r);
    EveryRunKeepsInv(s, steps, t);
    forall k | 0 <= k < t.nodes[n].waiting[r].seen ensures t.acked[k].index <= t.nodes[n].applied {
      assert t.acked[k] in t.committed;
    }
  }
}
