/**
 Sleep locks (sleeplock.c) over `sleep` and `wakeup` (proc.c), for any number
 of processes contending for one lock.  Every acquire and release of a spinlock
 is a step of its own, as is every entry that `wakeup` looks at; the scheduler
 dispatches, and `kkill` wakes, at any moment that the locks allow.
 */
module SleepLock {

  import opened Common

  /** Where a process stands in `acquiresleep`, `sleep` or `releasesleep`. */
  datatype Pc =
    | Outside            // not using the lock
    | Want               // about to acquire(&lk->lk), on entry or at the end of sleep
    | Test               // holds lk->lk, at the loop test
    | ToSleep            // holds lk->lk, saw locked, about to acquire its own p->lock
    | Drop               // holds both, about to release lk->lk
    | Mark               // holds p->lock, about to set chan and state
    | Switch             // holds p->lock, SLEEPING, about to swtch away
    | Off                // off the CPU, SLEEPING or RUNNABLE
    | Resumed            // dispatched again, holds p->lock
    | Holder             // acquiresleep has returned
    | Leave              // in releasesleep, about to acquire lk->lk
    | Clear              // holds lk->lk, about to clear locked
    | Scan(k: nat)       // holds lk->lk, wakeup at table entry k
    | Look(k: nat)       // holds lk->lk and entry k's p->lock

  datatype Proc = Proc(pc: Pc, state: RunState)

  /** `lk` and `plock` name the process that holds each spinlock; `owner` is lk->pid. */
  datatype State = State(
    locked: bool, owner: nat, lk: Option<nat>, procs: seq<Proc>, plock: seq<Option<nat>>)

  datatype Action =
    | Enter | Acquire | TestLocked | LockSelf | ReleaseLk | MarkSleeping | SwitchAway
    | Dispatch | Resume | StartRelease | AcquireToClear | ClearLocked
    | LookAt | Wake | FinishScan | Kill

  // ------------------------------------------------------------------- steps

  ghost predicate Enabled(s: State, p: nat, a: Action) {
    && p < |s.procs| == |s.plock|
    && var pc := s.procs[p].pc;
       match a
       case Enter => pc == Outside
       case Acquire => pc == Want && s.lk == None
       case TestLocked => pc == Test
       case LockSelf => pc == ToSleep && s.plock[p] == None
       case ReleaseLk => pc == Drop
       case MarkSleeping => pc == Mark
       case SwitchAway => pc == Switch
       case Dispatch => pc == Off && s.procs[p].state == RUNNABLE && s.plock[p] == None
       case Resume => pc == Resumed
       case StartRelease => pc == Holder
       case AcquireToClear => pc == Leave && s.lk == None
       case ClearLocked => pc == Clear
       case LookAt => pc.Scan? && pc.k < |s.procs| && (pc.k == p || s.plock[pc.k] == None)
       case Wake => pc.Look? && pc.k < |s.procs|
       case FinishScan => pc.Scan? && pc.k == |s.procs|
       case Kill => s.plock[p] == None
  }

  function Goto(s: State, p: nat, pc: Pc): State
    requires p < |s.procs|
  {
    s.(procs := s.procs[p := s.procs[p].(pc := pc)])
  }

  function Step(s: State, p: nat, a: Action): State
    requires Enabled(s, p, a)
  {
    match a
    case Enter => Goto(s, p, Want)
    case Acquire => Goto(s, p, Test).(lk := Some(p))
    case TestLocked =>
      if s.locked then Goto(s, p, ToSleep)
      else Goto(s, p, Holder).(locked := true, owner := p, lk := None)
    case LockSelf => Goto(s, p, Drop).(plock := s.plock[p := Some(p)])
    case ReleaseLk => Goto(s, p, Mark).(lk := None)
    case MarkSleeping => s.(procs := s.procs[p := Proc(Switch, SLEEPING)])
    case SwitchAway => Goto(s, p, Off).(plock := s.plock[p := None])
    case Dispatch => s.(procs := s.procs[p := Proc(Resumed, RUNNING)], plock := s.plock[p := Some(p)])
    case Resume => Goto(s, p, Want).(plock := s.plock[p := None])
    case StartRelease => Goto(s, p, Leave)
    case AcquireToClear => Goto(s, p, Clear).(lk := Some(p))
    case ClearLocked => Goto(s, p, Scan(0)).(locked := false)
    case LookAt =>
      var k := s.procs[p].pc.k;
      if k == p then Goto(s, p, Scan(k + 1))
      else Goto(s, p, Look(k)).(plock := s.plock[k := Some(p)])
    case Wake =>
      var k := s.procs[p].pc.k;
      var q := s.procs[k];
      var s' := s.(procs := s.procs[k := if q.state == SLEEPING then q.(state := RUNNABLE) else q],
                   plock := s.plock[k := None]);
      Goto(s', p, Scan(k + 1))
    case FinishScan => Goto(s, p, Outside).(lk := None)
    case Kill =>
      if s.procs[p].state == SLEEPING then s.(procs := s.procs[p := s.procs[p].(state := RUNNABLE)]) else s
  }

  // --------------------------------------------------------------- invariant

  predicate HoldsLk(pc: Pc) {
    pc.Test? || pc.ToSleep? || pc.Drop? || pc.Clear? || pc.Scan? || pc.Look?
  }

  predicate HoldsSelf(pc: Pc) { pc.Drop? || pc.Mark? || pc.Switch? || pc.Resumed? }

  /** The process owns the sleep lock: from acquiresleep's return until releasesleep clears it. */
  predicate Owns(pc: Pc) { pc.Holder? || pc.Leave? || pc.Clear? }

  /** Process `p` is asleep, or past the point of no return on its way there. */
  predicate Committed(x: Proc) {
    x.pc.Mark? || x.pc.Switch? || (x.pc == Off && x.state == SLEEPING)
  }

  /** Process `r` is in `wakeup`'s loop and will still look at entry `p`. */
  ghost predicate WillLook(s: State, r: int, p: nat) {
    && 0 <= r < |s.procs| && s.lk == Some(r)
    && ((s.procs[r].pc.Scan? || s.procs[r].pc.Look?) && s.procs[r].pc.k <= p)
  }

  ghost predicate ProcInv(s: State, p: nat)
    requires p < |s.procs| == |s.plock|
  {
    var x := s.procs[p];
    && (HoldsLk(x.pc) <==> s.lk == Some(p))
    && (HoldsSelf(x.pc) <==> s.plock[p] == Some(p))
    && (s.plock[p].Some? && s.plock[p] != Some(p) ==>
          s.plock[p].value < |s.procs| && s.procs[s.plock[p].value].pc == Look(p))
    && (x.pc.Look? ==> x.pc.k < |s.procs| && x.pc.k != p && s.plock[x.pc.k] == Some(p))
    && (x.pc.Scan? ==> x.pc.k <= |s.procs|)
    && (x.pc == Switch ==> x.state == SLEEPING)
    && (x.state == SLEEPING ==> x.pc.Switch? || x.pc.Off?)
    && (x.pc == Off ==> x.state != RUNNING)
    && (Owns(x.pc) <==> s.locked && s.owner == p)
    && (x.pc.ToSleep? || x.pc.Drop? ==> s.locked)
    && (Committed(x) && !s.locked ==> s.lk.Some? && WillLook(s, s.lk.value, p))
  }

  ghost predicate Inv(s: State) {
    && |s.plock| == |s.procs|
    && (s.lk.Some? ==> s.lk.value < |s.procs|)
    && (s.locked ==> s.owner < |s.procs|)
    && forall p {:trigger ProcInv(s, p)} :: 0 <= p < |s.procs| ==> ProcInv(s, p)
  }

  ghost predicate Init(s: State) {
    && |s.plock| == |s.procs| && !s.locked && s.lk == None
    && (forall p :: 0 <= p < |s.procs| ==> s.procs[p] == Proc(Outside, RUNNING))
    && (forall p :: 0 <= p < |s.plock| ==> s.plock[p] == None)
  }

  lemma SpinSteps(s: State, p: nat, a: Action)
    requires Inv(s) && Enabled(s, p, a) && (a.Enter? || a.Acquire? || a.StartRelease?)
    ensures Inv(Step(s, p, a))
  {
    var s' := Step(s, p, a);
    assert ProcInv(s, p);
    forall q | 0 <= q < |s'.procs| ensures ProcInv(s', q) {
      assert ProcInv(s, q);
    }
  }

  lemma TestSteps(s: State, p: nat, a: Action)
    requires Inv(s) && Enabled(s, p, a) && (a.TestLocked? || a.Kill?)
    ensures Inv(Step(s, p, a))
  {
    var s' := Step(s, p, a);
    assert ProcInv(s, p);
    forall q | 0 <= q < |s'.procs| ensures ProcInv(s', q) {
      assert ProcInv(s, q);
    }
  }

  lemma FallAsleep(s: State, p: nat, a: Action)
    requires Inv(s) && Enabled(s, p, a) && (a.LockSelf? || a.ReleaseLk? || a.MarkSleeping?)
    ensures Inv(Step(s, p, a))
  {
    var s' := Step(s, p, a);
    assert ProcInv(s, p);
    forall q | 0 <= q < |s'.procs| ensures ProcInv(s', q) {
      assert ProcInv(s, q);
    }
  }

  lemma SwitchStep(s: State, p: nat)
    requires Inv(s) && Enabled(s, p, SwitchAway)
    ensures Inv(Step(s, p, SwitchAway))
  {
    var s' := Step(s, p, SwitchAway);
    assert ProcInv(s, p);
    forall q | 0 <= q < |s'.procs| ensures ProcInv(s', q) {
      assert ProcInv(s, q);
    }
  }

  lemma DispatchStep(s: State, p: nat)
    requires Inv(s) && Enabled(s, p, Dispatch)
    ensures Inv(Step(s, p, Dispatch))
  {
    var s' := Step(s, p, Dispatch);
    assert ProcInv(s, p);
    forall q | 0 <= q < |s'.procs| ensures ProcInv(s', q) {
      assert ProcInv(s, q);
    }
  }

  lemma ResumeStep(s: State, p: nat)
    requires Inv(s) && Enabled(s, p, Resume)
    ensures Inv(Step(s, p, Resume))
  {
    var s' := Step(s, p, Resume);
    assert ProcInv(s, p);
    forall q | 0 <= q < |s'.procs| ensures ProcInv(s', q) {
      assert ProcInv(s, q);
    }
  }

  lemma ReleaseSteps(s: State, p: nat, a: Action)
    requires Inv(s) && Enabled(s, p, a) && (a.AcquireToClear? || a.ClearLocked? || a.FinishScan?)
    ensures Inv(Step(s, p, a))
  {
    var s' := Step(s, p, a);
    assert ProcInv(s, p);
    forall q | 0 <= q < |s'.procs| ensures ProcInv(s', q) {
      assert ProcInv(s, q);
    }
  }

  lemma LookAtStep(s: State, p: nat)
    requires Inv(s) && Enabled(s, p, LookAt)
    ensures Inv(Step(s, p, LookAt))
  {
    var s' := Step(s, p, LookAt);
    assert ProcInv(s, p) && ProcInv(s, s.procs[p].pc.k);
    forall q | 0 <= q < |s'.procs| ensures ProcInv(s', q) {
      assert ProcInv(s, q);
    }
  }

  lemma WakeStep(s: State, p: nat)
    requires Inv(s) && Enabled(s, p, Wake)
    ensures Inv(Step(s, p, Wake))
  {
    var s' := Step(s, p, Wake);
    assert ProcInv(s, p) && ProcInv(s, s.procs[p].pc.k);
    forall q | 0 <= q < |s'.procs| ensures ProcInv(s', q) {
      assert ProcInv(s, q);
    }
  }

  lemma StepInv(s: State, p: nat, a: Action)
    requires Inv(s) && Enabled(s, p, a)
    ensures Inv(Step(s, p, a))
  {
    match a
    case Enter | Acquire | StartRelease => SpinSteps(s, p, a);
    case TestLocked | Kill => TestSteps(s, p, a);
    case LockSelf | ReleaseLk | MarkSleeping => FallAsleep(s, p, a);
    case SwitchAway => SwitchStep(s, p);
    case Dispatch => DispatchStep(s, p);
    case Resume => ResumeStep(s, p);
    case AcquireToClear | ClearLocked | FinishScan => ReleaseSteps(s, p, a);
    case LookAt => LookAtStep(s, p);
    case Wake => WakeStep(s, p);
  }

  // --------------------------------------------------------------- every run

  datatype Move = Move(proc: nat, action: Action)

  ghost predicate LegalRun(s: State, ms: seq<Move>)
    decreases |ms|
  {
    ms == [] || (Enabled(s, ms[0].proc, ms[0].action) && LegalRun(Step(s, ms[0].proc, ms[0].action), ms[1..]))
  }

  function Run(s: State, ms: seq<Move>): State
    requires LegalRun(s, ms)
    decreases |ms|
  {
    if ms == [] then s else Run(Step(s, ms[0].proc, ms[0].action), ms[1..])
  }

  lemma {:induction false} RunInv(s: State, ms: seq<Move>)
    requires Inv(s) && LegalRun(s, ms)
    ensures Inv(Run(s, ms))
    decreases |ms|
  {
    if ms != [] {
      StepInv(s, ms[0].proc, ms[0].action);
      RunInv(Step(s, ms[0].proc, ms[0].action), ms[1..]);
    }
  }

  /**
   In every interleaving: a process that sleeps on a free lock still has its
   wakeup ahead of it, by a releaser that holds the inner spinlock; so nobody
   sleeps on a free lock once that spinlock is free.  At most one process owns
   the lock, and `holdingsleep` is true for exactly that process.
   */
  lemma NoLostWakeup(s: State, ms: seq<Move>)
    requires Init(s) && LegalRun(s, ms)
    ensures var r := Run(s, ms);
      && (forall p :: 0 <= p < |r.procs| && r.procs[p].state == SLEEPING && !r.locked ==>
            r.lk.Some? && WillLook(r, r.lk.value, p))
      && (r.lk == None && !r.locked ==> forall p :: 0 <= p < |r.procs| ==> r.procs[p].state != SLEEPING)
      && (forall p, q :: 0 <= p < |r.procs| && 0 <= q < |r.procs| && Owns(r.procs[p].pc) && Owns(r.procs[q].pc) ==> p == q)
      && (forall p :: 0 <= p < |r.procs| ==> (Owns(r.procs[p].pc) <==> r.locked && r.owner == p))
  {
    RunInv(s, ms);
    var r := Run(s, ms);
    forall p | 0 <= p < |r.procs|
      ensures Owns(r.procs[p].pc) <==> r.locked && r.owner == p
      ensures r.procs[p].state == SLEEPING && !r.locked ==> r.lk.Some? && WillLook(r, r.lk.value, p)
    {
      assert ProcInv(r, p);
    }
  }

  // ----------------------------------------------------------------- progress

  /** A releaser that looks at a sleeper wakes it. */
  lemma LookWakes(s: State, r: nat)
    requires Inv(s) && Enabled(s, r, Wake)
    ensures Step(s, r, Wake).procs[s.procs[r].pc.k].state != SLEEPING
  {
    assert ProcInv(s, r);
  }

  /** A run during which `p` stays asleep. */
  ghost predicate StaysAsleep(s: State, p: nat, ms: seq<Move>)
    decreases |ms|
  {
    && p < |s.procs| && s.procs[p].state == SLEEPING
    && (ms == [] || (Enabled(s, ms[0].proc, ms[0].action) && StaysAsleep(Step(s, ms[0].proc, ms[0].action), p, ms[1..])))
  }

  function StepsOf(r: nat, ms: seq<Move>): nat {
    if ms == [] then 0 else (if ms[0].proc == r && ms[0].action != Kill then 1 else 0) + StepsOf(r, ms[1..])
  }

  /** The steps a releaser can take before it wakes `p`. */
  function Ahead(pc: Pc, p: nat): int {
    match pc
    case Scan(k) => 2 * (p - k) + 1
    case Look(k) => 2 * (p - k)
    case _ => 0
  }

  /** Every step of a releaser that does not wake `p` brings it nearer; nobody else's step moves it. */
  lemma ComesNearer(s: State, r: nat, p: nat, q: nat, a: Action)
    requires Inv(s) && WillLook(s, r, p) && p < |s.procs| && s.procs[p].state == SLEEPING && Enabled(s, q, a)
    requires Step(s, q, a).procs[p].state == SLEEPING
    ensures WillLook(Step(s, q, a), r, p)
    ensures Ahead(Step(s, q, a).procs[r].pc, p) <= Ahead(s.procs[r].pc, p) - if q == r && a != Kill then 1 else 0
  {
    assert ProcInv(s, r) && ProcInv(s, q) && ProcInv(s, p);
    if q == r && a == Wake { LookWakes(s, r); }
  }

  /** A process asleep on a lock that is being released sleeps for a bounded number of the releaser's steps. */
  lemma {:induction false} BoundedSleep(s: State, r: nat, p: nat, ms: seq<Move>)
    requires Inv(s) && WillLook(s, r, p) && StaysAsleep(s, p, ms)
    ensures StepsOf(r, ms) <= Ahead(s.procs[r].pc, p) <= 2 * |s.procs|
    decreases |ms|
  {
    if ms != [] {
      var q, a := ms[0].proc, ms[0].action;
      ComesNearer(s, r, p, q, a);
      StepInv(s, q, a);
      BoundedSleep(Step(s, q, a), r, p, ms[1..]);
    }
  }

  /** The releaser can move, or the process whose entry it waits for can: nothing blocks the wakeup. */
  lemma NotStuck(s: State, r: nat, p: nat)
    requires Inv(s) && WillLook(s, r, p) && p < |s.procs|
    ensures var k := s.procs[r].pc.k;
      || Enabled(s, r, LookAt) || Enabled(s, r, Wake)
      || (k < |s.procs| && (Enabled(s, k, MarkSleeping) || Enabled(s, k, SwitchAway) || Enabled(s, k, Resume)))
  {
    var k := s.procs[r].pc.k;
    assert ProcInv(s, r) && ProcInv(s, k);
    if s.plock[k].Some? && s.plock[k] != Some(k) { assert ProcInv(s, s.plock[k].value); }
  }
}
