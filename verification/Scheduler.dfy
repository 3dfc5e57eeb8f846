/**
 The two schedulers on one CPU: first come, first served (proc.c) and the round
 robin that it replaced (proc_RR_backup.c).  With `yield` emptied, a process
 keeps the CPU until it sleeps or exits, so a kernel call that does not sleep,
 such as kfork, is one step of a run.
 */
module Scheduler {

  import opened Common

  datatype Proc = Proc(state: RunState, pid: nat)

  // ---------------------------------------------------- the scan of proc.c

  ghost predicate LeastRunnable(procs: seq<Proc>, i: int) {
    && 0 <= i < |procs| && procs[i].state == RUNNABLE
    && forall j :: 0 <= j < |procs| && procs[j].state == RUNNABLE ==> procs[i].pid <= procs[j].pid
  }

  ghost predicate NoneRunnable(procs: seq<Proc>) {
    forall j :: 0 <= j < |procs| ==> procs[j].state != RUNNABLE
  }

  class Cpu {
    const table: array<Proc>
    var current: Option<nat>           // c->proc
    var held: set<nat>                 // entries whose p->lock this CPU holds

    constructor (n: nat)
      ensures fresh(table) && table.Length == n && current == None && held == {}
      ensures forall i :: 0 <= i < n ==> table[i] == Proc(UNUSED, 0)
    {
      table := new Proc[n](_ => Proc(UNUSED, 0));
      current, held := None, {};
    }

    /**
     One turn of `scheduler`, up to `swtch`.  The least RUNNABLE pid is made
     RUNNING and its lock, and no other, is held; nothing happens if there is none.
     */
    method Choose() returns (found: bool)
      requires held == {} && current == None
      modifies this, table
      ensures !found ==> NoneRunnable(table[..]) && table[..] == old(table[..]) && held == {} && current == None
      ensures found ==> current.Some? && LeastRunnable(old(table[..]), current.value)
      ensures found ==> held == {current.value}
      ensures found ==> table[..] == old(table[..])[current.value := Proc(RUNNING, old(table[..])[current.value].pid)]
    {
      var first := -1;
      var p := 0;
      while p < table.Length
        invariant 0 <= p <= table.Length && -1 <= first < p && current == None
        invariant table[..] == old(table[..])
        invariant held == if first == -1 then {} else {first as nat}
        invariant first == -1 ==> forall j :: 0 <= j < p ==> table[j].state != RUNNABLE
        invariant first != -1 ==> table[first].state == RUNNABLE
        invariant first != -1 ==> forall j :: 0 <= j < p && table[j].state == RUNNABLE ==> table[first].pid <= table[j].pid
      {
        held := held + {p};
        if table[p].state == RUNNABLE && (first == -1 || table[p].pid < table[first].pid) {
          if first != -1 {
            held := held - {first as nat};
          }
          first := p;
        } else {
          held := held - {p};
        }
        p := p + 1;
      }
      found := first != -1;
      if found {
        table[first] := table[first].(state := RUNNING);
        current := Some(first);
      }
    }

    /** Back from `swtch`: the process has given up the CPU with its lock held. */
    method Return()
      requires current.Some? && held == {current.value}
      modifies this
      ensures current == None && held == {}
    {
      held := held - {current.value};
      current := None;
    }

    /**
     A whole turn of `scheduler`: the chosen process runs and gives up the CPU as
     SLEEPING or ZOMBIE.  The turn is a dispatch and a leave of the machine below,
     so its theorem is about this loop; no lock stays held.
     */
    method Turn(ghost s: System, leave: RunState) returns (found: bool, ghost s': System)
      requires held == {} && current == None && s.procs == table[..] && s.running == None && Inv(s)
      requires leave == SLEEPING || leave == ZOMBIE
      modifies this, table
      ensures held == {} && current == None && Inv(s') && s'.procs == table[..] && s'.running == None
      ensures !found ==> s' == s && NoneRunnable(s.procs)
      ensures found ==> exists i :: Enabled(s, Dispatch(i)) && s' == Left(Step(s, Dispatch(i)), leave)
    {
      found := Choose();
      s' := s;
      if found {
        var i := current.value;
        StepInv(s, Dispatch(i));
        s' := Step(s, Dispatch(i));
        StepInv(s', if leave == SLEEPING then Sleep else Exit);
        s' := Left(s', leave);
        table[i] := table[i].(state := leave);
        Return();
      }
    }
  }

  /** The running process leaves the CPU. */
  function Left(s: System, leave: RunState): System
    requires s.running.Some? && s.running.value < |s.procs|
  {
    Step(s, if leave == SLEEPING then Sleep else Exit)
  }

  // ------------------------------------------------------ FCFS over whole runs

  /** `waiting` holds the processes never dispatched. */
  datatype System = System(procs: seq<Proc>, running: Option<nat>, nextpid: nat, waiting: set<nat>)

  datatype Action =
    | Dispatch(i: nat)        // scheduler: LeastRunnable
    | Fork(c: nat)            // the running process makes entry c RUNNABLE
    | FailFork                // a pid was taken, then freeproc
    | Sleep | Exit            // the running process leaves the CPU
    | Wake(i: nat)            // wakeup, kkill, or an interrupt
    | Reap(i: nat)            // kwait frees a zombie

  ghost predicate Enabled(s: System, a: Action) {
    match a
    case Dispatch(i) => s.running == None && LeastRunnable(s.procs, i)
    case Fork(c) => s.running.Some? && c < |s.procs| && s.procs[c].state == UNUSED
    case FailFork => s.running.Some?
    case Sleep => s.running.Some? && s.running.value < |s.procs|
    case Exit => s.running.Some? && s.running.value < |s.procs|
    case Wake(i) => i < |s.procs| && s.procs[i].state == SLEEPING
    case Reap(i) => s.running.Some? && i < |s.procs| && s.procs[i].state == ZOMBIE
  }

  function Step(s: System, a: Action): System
    requires Enabled(s, a)
  {
    match a
    case Dispatch(i) =>
      var pid := s.procs[i].pid;
      s.(procs := s.procs[i := Proc(RUNNING, pid)], running := Some(i), waiting := s.waiting - {pid})
    case Fork(c) =>
      s.(procs := s.procs[c := Proc(RUNNABLE, s.nextpid)], nextpid := s.nextpid + 1, waiting := s.waiting + {s.nextpid})
    case FailFork => s.(nextpid := s.nextpid + 1)
    case Sleep =>
      var r := s.running.value;
      s.(procs := s.procs[r := s.procs[r].(state := SLEEPING)], running := None)
    case Exit =>
      var r := s.running.value;
      s.(procs := s.procs[r := s.procs[r].(state := ZOMBIE)], running := None)
    case Wake(i) => s.(procs := s.procs[i := s.procs[i].(state := RUNNABLE)])
    case Reap(i) => s.(procs := s.procs[i := Proc(UNUSED, 0)])
  }

  ghost predicate WaitsRunnable(s: System, pid: nat) {
    exists i :: 0 <= i < |s.procs| && s.procs[i] == Proc(RUNNABLE, pid)
  }

  /** Entries in use have distinct pids below `nextpid`, and only the CPU's process is RUNNING. */
  ghost predicate TableInv(s: System) {
    && (s.running.Some? ==> s.running.value < |s.procs| && s.procs[s.running.value].state == RUNNING)
    && (forall i :: 0 <= i < |s.procs| && s.procs[i].state == RUNNING ==> s.running == Some(i))
    && (forall i, j :: 0 <= i < j < |s.procs| ==> !SamePid(s.procs[i], s.procs[j]))
    && (forall i :: 0 <= i < |s.procs| && s.procs[i].state != UNUSED ==> s.procs[i].pid < s.nextpid)
  }

  predicate SamePid(x: Proc, y: Proc) {
    x.state != UNUSED && y.state != UNUSED && x.pid == y.pid
  }

  /** Who waits is RUNNABLE. */
  ghost predicate OrderInv(s: System) {
    forall pid :: pid in s.waiting ==> pid < s.nextpid && WaitsRunnable(s, pid)
  }

  ghost predicate Inv(s: System) { TableInv(s) && OrderInv(s) }

  lemma TableKept(s: System, a: Action)
    requires TableInv(s) && Enabled(s, a)
    ensures TableInv(Step(s, a))
  {
  }

  lemma WaitingKept(s: System, a: Action, pid: nat)
    requires Inv(s) && Enabled(s, a) && pid in Step(s, a).waiting
    ensures WaitsRunnable(Step(s, a), pid)
    ensures a.Dispatch? ==> s.procs[a.i].pid < pid
  {
    var s' := Step(s, a);
    if a.Fork? && pid == s.nextpid {
      assert s'.procs[a.c] == Proc(RUNNABLE, pid);
    } else {
      assert WaitsRunnable(s, pid);
      var i :| 0 <= i < |s.procs| && s.procs[i] == Proc(RUNNABLE, pid);
      assert s'.procs[i] == Proc(RUNNABLE, pid);
    }
  }

  lemma StepInv(s: System, a: Action)
    requires Inv(s) && Enabled(s, a)
    ensures Inv(Step(s, a))
  {
    TableKept(s, a);
    var s' := Step(s, a);
    forall pid | pid in s'.waiting ensures WaitsRunnable(s', pid) && (a.Dispatch? ==> s.procs[a.i].pid < pid) {
      WaitingKept(s, a, pid);
    }
  }

  ghost predicate LegalRun(s: System, acts: seq<Action>)
    decreases |acts|
  {
    acts == [] || (Enabled(s, acts[0]) && LegalRun(Step(s, acts[0]), acts[1..]))
  }

  function Run(s: System, acts: seq<Action>): System
    requires LegalRun(s, acts)
    decreases |acts|
  {
    if acts == [] then s else Run(Step(s, acts[0]), acts[1..])
  }

  /** After `userinit`: init waits to be run, and nobody else exists. */
  ghost predicate Boot(s: System) {
    && s.running == None && s.waiting == {1} && s.nextpid == 2
    && |s.procs| > 0 && s.procs[0] == Proc(RUNNABLE, 1) && forall i :: 0 < i < |s.procs| ==> s.procs[i].state == UNUSED
  }

  lemma InitInv(s: System)
    requires Boot(s)
    ensures Inv(s)
  {
    assert s.procs[0] == Proc(RUNNABLE, 1);
  }

  lemma {:induction false} RunPrefix(s: System, acts: seq<Action>, k: nat)
    requires LegalRun(s, acts) && k <= |acts|
    ensures LegalRun(s, acts[..k])
    ensures k < |acts| ==> Enabled(Run(s, acts[..k]), acts[k])
    ensures k < |acts| ==> LegalRun(s, acts[..k + 1]) && Run(s, acts[..k + 1]) == Step(Run(s, acts[..k]), acts[k])
    decreases |acts|
  {
    if k > 0 {
      RunPrefix(Step(s, acts[0]), acts[1..], k - 1);
      assert acts[..k][1..] == acts[1..][..k - 1];
      if k < |acts| { assert acts[..k + 1][1..] == acts[1..][..k]; }
    } else if acts != [] {
      assert acts[..1][1..] == [];
    }
  }

  /** The system after the first `k` actions. */
  function After(s: System, acts: seq<Action>, k: nat): System
    requires LegalRun(s, acts) && k <= |acts|
  {
    RunPrefix(s, acts, k);
    Run(s, acts[..k])
  }

  /** Action `j` dispatches the process with this pid. */
  ghost predicate DispatchedAt(s: System, acts: seq<Action>, j: nat, pid: nat)
    requires LegalRun(s, acts)
  {
    && j < |acts| && acts[j].Dispatch? && acts[j].i < |After(s, acts, j).procs|
    && After(s, acts, j).procs[acts[j].i].pid == pid
  }

  /** A pid that was given out, but to no process that is left. */
  ghost predicate NoSuch(s: System, pid: nat) {
    pid < s.nextpid && forall i :: 0 <= i < |s.procs| && s.procs[i].state != UNUSED ==> s.procs[i].pid != pid
  }

  /** Never dispatched: still to be created, waiting, or gone without having been created. */
  ghost predicate Coming(s: System, pid: nat) {
    pid in s.waiting || pid >= s.nextpid || NoSuch(s, pid)
  }

  lemma NoSuchStep(s: System, a: Action, pid: nat)
    requires NoSuch(s, pid) && Enabled(s, a) && TableInv(s)
    ensures NoSuch(Step(s, a), pid)
  {
  }

  lemma ComingStep(s: System, a: Action, pid: nat)
    requires Inv(s) && Coming(s, pid) && Enabled(s, a) && !(a.Dispatch? && s.procs[a.i].pid == pid)
    ensures Coming(Step(s, a), pid)
  {
    if NoSuch(s, pid) { NoSuchStep(s, a, pid); }
  }

  lemma {:induction false} InvAfter(s: System, acts: seq<Action>, k: nat)
    requires Inv(s) && LegalRun(s, acts) && k <= |acts|
    ensures Inv(After(s, acts, k))
  {
    assert acts[..0] == [];
    if k > 0 {
      InvAfter(s, acts, k - 1);
      RunPrefix(s, acts, k - 1);
      StepInv(After(s, acts, k - 1), acts[k - 1]);
    }
  }

  lemma {:induction false} ComingAfter(s: System, acts: seq<Action>, k: nat, pid: nat)
    requires Inv(s) && LegalRun(s, acts) && k <= |acts| && Coming(s, pid)
    requires forall j: nat :: j < k ==> !DispatchedAt(s, acts, j, pid)
    ensures Coming(After(s, acts, k), pid)
  {
    assert acts[..0] == [];
    if k > 0 {
      ComingAfter(s, acts, k - 1, pid);
      RunPrefix(s, acts, k - 1);
      InvAfter(s, acts, k - 1);
      assert !DispatchedAt(s, acts, k - 1, pid);
      ComingStep(After(s, acts, k - 1), acts[k - 1], pid);
    }
  }

  lemma {:induction false} NoSuchAfter(s: System, acts: seq<Action>, j: nat, k: nat, pid: nat)
    requires Inv(s) && LegalRun(s, acts) && j <= k <= |acts| && NoSuch(After(s, acts, j), pid)
    ensures NoSuch(After(s, acts, k), pid)
    decreases k - j
  {
    if j < k {
      NoSuchAfter(s, acts, j, k - 1, pid);
      RunPrefix(s, acts, k - 1);
      InvAfter(s, acts, k - 1);
      NoSuchStep(After(s, acts, k - 1), acts[k - 1], pid);
    }
  }

  /** Every run from boot: at most one process is RUNNING, the CPU's. */
  lemma OneRunning(s: System, acts: seq<Action>, k: nat, i: nat)
    requires Boot(s) && LegalRun(s, acts) && k <= |acts| && i < |After(s, acts, k).procs|
    ensures After(s, acts, k).procs[i].state == RUNNING <==> After(s, acts, k).running == Some(i)
  {
    InitInv(s);
    InvAfter(s, acts, k);
  }

  /**
   Every run from boot: when a process is dispatched for the first time, every
   process dispatched before it was created before it.
   */
  lemma FirstComeFirstServed(s: System, acts: seq<Action>, j: nat, k: nat, earlier: nat, pid: nat)
    requires Boot(s) && LegalRun(s, acts) && j < k
    requires DispatchedAt(s, acts, j, earlier) && DispatchedAt(s, acts, k, pid)
    requires forall i: nat :: i < k ==> !DispatchedAt(s, acts, i, pid)
    ensures earlier < pid
  {
    InitInv(s);
    assert Coming(s, pid);
    ComingAfter(s, acts, j, pid);
    InvAfter(s, acts, j);
    RunPrefix(s, acts, j);
    RunPrefix(s, acts, k);
    var r := After(s, acts, j);
    assert !DispatchedAt(s, acts, j, pid);
    if NoSuch(r, pid) { NoSuchAfter(s, acts, j, k, pid); }
    if pid in r.waiting {
      assert WaitsRunnable(r, pid);
      var i :| 0 <= i < |r.procs| && r.procs[i] == Proc(RUNNABLE, pid);
    }
  }

  // ----------------------------------------------------- round robin, fairness

  /** `cursor` is the entry the scan has reached; `busy` while its process runs. */
  datatype Robin = Robin(states: seq<RunState>, cursor: nat, busy: bool)

  /** Visit the entry at the cursor; come back from it; or anyone changes entry i's state. */
  datatype Move = Visit | Back(to: RunState) | Change(i: nat, to: RunState)

  ghost predicate Can(r: Robin, m: Move) {
    && r.cursor < |r.states|
    && match m
       case Visit => !r.busy
       case Back(to) => r.busy && to != RUNNING
       case Change(i, to) => i < |r.states| && to != RUNNING && !(r.busy && i == r.cursor)
  }

  function Moved(r: Robin, m: Move): Robin
    requires Can(r, m)
  {
    var next := if r.cursor + 1 < |r.states| then r.cursor + 1 else 0;
    match m
    case Visit =>
      if r.states[r.cursor] == RUNNABLE then r.(states := r.states[r.cursor := RUNNING], busy := true)
      else r.(cursor := next)
    case Back(to) => Robin(r.states[r.cursor := to], next, false)
    case Change(i, to) => r.(states := r.states[i := to])
  }

  predicate Dispatches(r: Robin, m: Move)
    requires r.cursor < |r.states|
  {
    m == Visit && r.states[r.cursor] == RUNNABLE
  }

  /** A run during which entry `p` stays RUNNABLE and is never dispatched. */
  ghost predicate Starves(r: Robin, p: nat, ms: seq<Move>)
    decreases |ms|
  {
    && p < |r.states| && r.states[p] == RUNNABLE
    && (ms == [] || (Can(r, ms[0]) && Starves(Moved(r, ms[0]), p, ms[1..])))
  }

  function Count(r: Robin, p: nat, ms: seq<Move>): nat
    requires Starves(r, p, ms)
    decreases |ms|
  {
    if ms == [] then 0
    else (if Dispatches(r, ms[0]) then 1 else 0) + Count(Moved(r, ms[0]), p, ms[1..])
  }

  /** How many entries the scan still visits before it reaches `p`. */
  function Ahead(r: Robin, p: nat): int {
    (if r.cursor <= p && !(r.busy && r.cursor == p) then p - r.cursor else |r.states| - r.cursor + p)
    - (if r.busy then 1 else 0)
  }

  /** A process that stays RUNNABLE waits for at most NPROC - 1 dispatches of others. */
  lemma {:induction false} RoundRobinBound(r: Robin, p: nat, ms: seq<Move>)
    requires Starves(r, p, ms) && r.cursor < |r.states|
    ensures Count(r, p, ms) <= Ahead(r, p) <= |r.states| - 1
    decreases |ms|
  {
    if ms != [] {
      var r' := Moved(r, ms[0]);
      RoundRobinBound(r', p, ms[1..]);
    }
  }
}
