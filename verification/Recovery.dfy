/** Restoring a lone member's corrupt data file from a backup: the files of the
    data directory, the steps of a start, and crashes between any two of them.
    A rename takes effect or not; the directory is synced after each. */
module Recovery {

  /** The data file: missing, corrupt, healthy, or a new empty store. */
  datatype DataFile = Missing | Corrupt | Healthy(restored: bool) | Empty

  /** The store built beside it. */
  datatype Restored = None | Partial | Complete

  /** What a start is about to do. */
  datatype Pc =
    | Off
    | Finish                                // look for an interrupted restore
    | FinishSnapshots | FinishWal | FinishData
    | Open
    | Build | Built                         // restore the backup, record the recovery in it
    | SwapData | SwapSnapshots | SwapWal | SwapRestored
    | Serving | Refused

  /** `snapshots` and `wal` say whether the raft state in place is that of a data file found corrupt.
      `kept` are the names corrupt files were moved to, `corruptions` how many data files went bad. */
  datatype State = State(
    data: DataFile, restored: Restored, snapshots: bool, wal: bool, kept: set<nat>, corruptions: nat, pc: Pc)

  datatype Step =
    | Start
    | Next(now: nat)       // the start's next action; `now` is the clock where it names a file
    | Refuse               // several members, no usable backup, or told to refuse
    | BuildFails
    | Crash
    | GoesBad              // a crash that leaves the data file corrupt

  predicate Enabled(s: State, step: Step) {
    match step
    case Start => s.pc == Off
    case Next(_) => s.pc != Off && s.pc != Serving && s.pc != Refused
    case Refuse => s.pc == Build
    case BuildFails => s.pc == Build || s.pc == Built
    case Crash => s.pc != Off
    case GoesBad => s.pc == Serving && s.data.Healthy?
  }

  function Do(s: State, step: Step): State
    requires Enabled(s, step)
  {
    match step
    case Start => s.(pc := Finish)
    case Refuse => s.(pc := Refused)
    case BuildFails => s.(pc := Refused)
    case Crash => s.(pc := Off)
    case GoesBad => s.(pc := Off, data := Corrupt, snapshots := true, wal := true, corruptions := s.corruptions + 1)
    case Next(now) => Act(s, now)
  }

  function Act(s: State, now: nat): State
    requires s.pc != Off && s.pc != Serving && s.pc != Refused
  {
    match s.pc
    // finish_interrupted_restore
    case Finish => s.(pc := if !s.data.Missing? || s.restored == None then Open else FinishSnapshots)
    case FinishSnapshots => s.(snapshots := false, pc := FinishWal)
    case FinishWal => s.(wal := false, pc := FinishData)
    case FinishData => s.(data := Healthy(true), restored := None, pc := Open)
    // Opening a missing file creates an empty store.
    case Open =>
      if s.data.Missing? then s.(data := Empty, pc := Serving)
      else if s.data.Corrupt? then s.(pc := Build)
      else s.(pc := Serving)
    // The old restored file is removed and a new one begun, then completed.
    case Build => s.(restored := Partial, pc := Built)
    case Built => s.(restored := Complete, pc := SwapData)
    case SwapData => s.(data := Missing, kept := s.kept + {now}, pc := SwapSnapshots)
    case SwapSnapshots => s.(snapshots := false, pc := SwapWal)
    case SwapWal => s.(wal := false, pc := SwapRestored)
    case SwapRestored => s.(data := Healthy(true), restored := None, pc := Serving)
  }

  ghost predicate Reaches(s: State, steps: seq<Step>, t: State)
    decreases |steps|
  {
    if steps == [] then s == t else Enabled(s, steps[0]) && Reaches(Do(s, steps[0]), steps[1..], t)
  }

  /** A member that has data, whatever a build left beside it. */
  predicate Init(s: State) {
    s.pc == Off && s.data == Healthy(false) && s.kept == {} && s.corruptions == 0
  }

  /** Where each step of a start finds the files. */
  predicate AtPc(s: State) {
    match s.pc
    case FinishSnapshots => s.data.Missing?
    case FinishWal => s.data.Missing? && !s.snapshots
    case FinishData => s.data.Missing? && !s.snapshots && !s.wal
    case Open => !s.data.Missing?
    case Build => s.data.Corrupt?
    case Built => s.data.Corrupt?
    case SwapData => s.data.Corrupt? && s.restored == Complete
    case SwapSnapshots => s.data.Missing?
    case SwapWal => s.data.Missing? && !s.snapshots
    case SwapRestored => s.data.Missing? && !s.snapshots && !s.wal
    case Serving => s.data.Healthy?
    case _ => true
  }

  predicate Inv(s: State) {
    && !s.data.Empty?
    && (s.data.Missing? ==> s.restored == Complete)
    && (s.data.Healthy? && s.data.restored ==> !s.snapshots && !s.wal)
    && AtPc(s)
  }

  lemma StepKeepsInv(s: State, step: Step)
    requires Inv(s) && Enabled(s, step)
    ensures Inv(Do(s, step))
  {
  }

  lemma {:induction false} EveryRunKeepsInv(s: State, steps: seq<Step>, t: State)
    requires Inv(s) && Reaches(s, steps, t)
    ensures Inv(t)
    decreases |steps|
  {
    if steps != [] {
      StepKeepsInv(s, steps[0]);
      EveryRunKeepsInv(Do(s, steps[0]), steps[1..], t);
    }
  }

  /** However many crashes, wherever: no start opens an empty store in place of data, a missing data file
      means a complete restored one is there, and a restored store is the data file only once the corrupt
      one's raft state is out of the way. */
  lemma RestoreIsCrashSafe(s: State, steps: seq<Step>, t: State)
    requires Init(s) && Reaches(s, steps, t)
    ensures !t.data.Empty?
    ensures t.data.Missing? ==> t.restored == Complete
    ensures t.data.Healthy? && t.data.restored ==> !t.snapshots && !t.wal
  {
    EveryRunKeepsInv(s, steps, t);
  }

  // ---------- The corrupt file is kept ----------

  /** The clock never names a file a corrupt one was moved to before. */
  ghost predicate FreshNames(s: State, steps: seq<Step>)
    decreases |steps|
  {
    steps == [] || !Enabled(s, steps[0]) ||
      ((s.pc == SwapData && steps[0].Next? ==> steps[0].now !in s.kept) && FreshNames(Do(s, steps[0]), steps[1..]))
  }

  /** Every corrupt data file is still in place or kept under its own name. */
  predicate AllKept(s: State) { s.corruptions == |s.kept| + if s.data.Corrupt? then 1 else 0 }

  /** Moving the file aside keeps it, and every one before it, if and only if its new name is fresh. */
  lemma KeptExactly(s: State, now: nat)
    requires Inv(s) && s.pc == SwapData && AllKept(s)
    ensures AllKept(Do(s, Next(now))) <==> now !in s.kept
  {
    if now in s.kept { assert s.kept + {now} == s.kept; }
  }

  lemma {:induction false} EveryCorruptFileKept(s: State, steps: seq<Step>, t: State)
    requires Inv(s) && AllKept(s) && Reaches(s, steps, t) && FreshNames(s, steps)
    ensures AllKept(t)
    decreases |steps|
  {
    if steps != [] {
      StepKeepsInv(s, steps[0]);
      if s.pc == SwapData && steps[0].Next? { KeptExactly(s, steps[0].now); }
      EveryCorruptFileKept(Do(s, steps[0]), steps[1..], t);
    }
  }

  // ---------- An undisturbed start serves ----------

  function Nexts(now: nat, n: nat): seq<Step> { seq(n, _ => Next(now)) }

  /** How many actions a start has left, at most. */
  function Left(pc: Pc): nat {
    match pc
    case Finish => 11
    case FinishSnapshots => 10
    case FinishWal => 9
    case FinishData => 8
    case Open => 7
    case Build => 6
    case Built => 5
    case SwapData => 4
    case SwapSnapshots => 3
    case SwapWal => 2
    case SwapRestored => 1
    case _ => 0
  }

  lemma NextFirst(s: State, now: nat, n: nat, t: State)
    requires Enabled(s, Next(now)) && Reaches(Do(s, Next(now)), Nexts(now, n), t)
    ensures Reaches(s, Nexts(now, n + 1), t)
  {
    assert Nexts(now, n + 1)[1..] == Nexts(now, n);
  }

  lemma {:induction false} ActionsServe(s: State, now: nat) returns (n: nat, t: State)
    requires Inv(s) && Left(s.pc) > 0
    ensures n <= Left(s.pc) && Reaches(s, Nexts(now, n), t) && t.pc == Serving && Inv(t)
    ensures t.data == if s.data.Healthy? then s.data else Healthy(true)
    ensures s.kept <= t.kept && (s.data.Corrupt? ==> now in t.kept) && (!s.data.Corrupt? ==> t.kept == s.kept)
    decreases Left(s.pc)
  {
    var u := Do(s, Next(now));
    if u.pc == Serving {
      n, t := 0, u;
    } else {
      n, t := ActionsServe(u, now);
    }
    NextFirst(s, now, n, t);
    n := n + 1;
  }

  /** After any run, crashes wherever they fell, a start that is left to finish serves within eleven actions:
      the data it has if that is healthy, else the restored store, with a corrupt file kept. */
  lemma StartServes(s: State, steps: seq<Step>, t: State, now: nat) returns (n: nat, u: State)
    requires Init(s) && Reaches(s, steps, t) && t.pc == Off
    ensures n <= 11 && Reaches(Do(t, Start), Nexts(now, n), u) && u.pc == Serving
    ensures u.data == if t.data.Healthy? then t.data else Healthy(true)
    ensures t.data.Corrupt? ==> now in u.kept
  {
    EveryRunKeepsInv(s, steps, t);
    StepKeepsInv(t, Start);
    n, u := ActionsServe(Do(t, Start), now);
  }
}
