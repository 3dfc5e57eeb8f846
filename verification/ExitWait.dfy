/**
 Process creation, exit and wait (proc.c) over every interleaving.  `wait_lock`
 is explicit.  Work done entirely under one p->lock is one step; `wakeup` acts
 on the only process that can sleep on the channel in question, which for these
 calls is the parent that waits on itself.  Table entry 0 is `initproc`.
 */
module ExitWait {

  import opened Common

  datatype Pc =
    | Body                               // anywhere else
    | Forked(child: nat)                 // kfork: child allocated, not yet linked
    | Linked(child: nat)                 // kfork: parent set, child not yet RUNNABLE
    | Exiting                            // kexit: about to acquire wait_lock
    | Reparent(k: nat)                   // reparent: at table entry k
    | WakeInit(k: nat)                   // reparent: entry k given to init, wakeup(initproc) next
    | WakeParent                         // kexit: about to wakeup(p->parent)
    | Die                                // kexit: about to become ZOMBIE
    | Dying                              // ZOMBIE, still on the CPU with p->lock held
    | Gone                               // ZOMBIE, switched away
    | Waiting                            // kwait: about to acquire wait_lock
    | Look(k: nat, havekids: bool)       // kwait: scan at table entry k
    | Mark                               // sleep: wait_lock released, p->lock held
    | Asleep                             // sleep: switched away

  /** `maker` is the process whose kfork allocated the entry; the code does not store it. */
  datatype Proc = Proc(state: RunState, parent: Option<nat>, pid: nat, xstate: int, pc: Pc, maker: nat)

  /** `exited` and `reaped` record every exit status and every status that kwait returned. */
  datatype State = State(
    procs: seq<Proc>, waitLock: Option<nat>, nextpid: nat, exited: map<nat, int>, reaped: seq<(nat, int)>)

  datatype Action =
    | Allocate(child: nat) | Abort | Link | Ready
    | Exit | LockExit | Adopt | NudgeInit | NudgeParent | BecomeZombie(status: int) | SwitchOut
    | Wait | LockWait | Skip | Reap | GiveUp | Drop | Sleep
    | Block | Wake | Dispatch

  // ------------------------------------------------------------------- steps

  predicate ChildOf(x: Proc, p: nat) { x.parent == Some(p) }

  ghost predicate Enabled(s: State, p: nat, a: Action) {
    && p < |s.procs|
    && var x := s.procs[p];
       (a.Wake? || a.Dispatch? || a.SwitchOut? || x.state == RUNNING) &&
       match a
       case Wake => x.state == SLEEPING && x.pc != Mark
       case Dispatch => x.state == RUNNABLE
       case SwitchOut => x.pc == Dying
       case Allocate(c) => x.pc == Body && c < |s.procs| && s.procs[c].state == UNUSED
       case Abort => x.pc.Forked? && x.pc.child < |s.procs|
       case Link => x.pc.Forked? && x.pc.child < |s.procs| && s.waitLock == None
       case Ready => x.pc.Linked? && x.pc.child < |s.procs|
       case Exit => x.pc == Body && p != 0
       case LockExit => x.pc == Exiting && s.waitLock == None
       case Adopt => x.pc.Reparent? && x.pc.k <= |s.procs|
       case NudgeInit => x.pc.WakeInit? && s.procs[0].pc != Mark
       case NudgeParent => x.pc == WakeParent && (x.parent.Some? && x.parent.value < |s.procs| ==> s.procs[x.parent.value].pc != Mark)
       case BecomeZombie(status) => x.pc == Die
       case Wait => x.pc == Body
       case LockWait => x.pc == Waiting && s.waitLock == None
       case Skip => x.pc.Look? && x.pc.k < |s.procs| && !(ChildOf(s.procs[x.pc.k], p) && s.procs[x.pc.k].state == ZOMBIE)
       case Reap => x.pc.Look? && x.pc.k < |s.procs| && ChildOf(s.procs[x.pc.k], p) && s.procs[x.pc.k].pc == Gone
       case GiveUp => x.pc.Look?                       // no children or killed, after the scan; or a failed copyout
         && (x.pc.k == |s.procs| || (x.pc.k < |s.procs| && ChildOf(s.procs[x.pc.k], p) && s.procs[x.pc.k].pc == Gone))
       case Drop => x.pc.Look? && x.pc.k == |s.procs| && x.pc.havekids
       case Sleep => x.pc == Mark
       case Block => x.pc == Body
  }

  function Goto(s: State, p: nat, pc: Pc): State
    requires p < |s.procs|
  {
    s.(procs := s.procs[p := s.procs[p].(pc := pc)])
  }

  /** `wakeup(q)`: q is the only process that sleeps on that channel, and only in kwait. */
  function Nudge(s: State, q: nat): State
    requires q < |s.procs|
  {
    var y := s.procs[q];
    if y.state == SLEEPING && y.pc == Asleep then s.(procs := s.procs[q := y.(state := RUNNABLE)]) else s
  }

  const FREE: Proc := Proc(UNUSED, None, 0, 0, Body, 0)

  function Step(s: State, p: nat, a: Action): State
    requires Enabled(s, p, a)
  {
    var x := s.procs[p];
    match a
    case Allocate(c) =>
      Goto(s.(procs := s.procs[c := Proc(USED, None, s.nextpid, 0, Body, p)], nextpid := s.nextpid + 1), p, Forked(c))
    case Abort => Goto(s.(procs := s.procs[x.pc.child := FREE]), p, Body)
    case Link =>
      var c := x.pc.child;
      Goto(s.(procs := s.procs[c := s.procs[c].(parent := Some(p))]), p, Linked(c))
    case Ready =>
      var c := x.pc.child;
      Goto(s.(procs := s.procs[c := s.procs[c].(state := RUNNABLE)]), p, Body)
    case Exit => Goto(s, p, Exiting)
    case LockExit => Goto(s, p, Reparent(0)).(waitLock := Some(p))
    case Adopt =>
      var k := x.pc.k;
      if k == |s.procs| then Goto(s, p, WakeParent)
      else if ChildOf(s.procs[k], p) then Goto(s.(procs := s.procs[k := s.procs[k].(parent := Some(0))]), p, WakeInit(k))
      else Goto(s, p, Reparent(k + 1))
    case NudgeInit => Goto(Nudge(s, 0), p, Reparent(x.pc.k + 1))
    case NudgeParent =>
      Goto(if x.parent.Some? && x.parent.value < |s.procs| then Nudge(s, x.parent.value) else s, p, Die)
    case BecomeZombie(status) =>
      s.(procs := s.procs[p := x.(state := ZOMBIE, xstate := status, pc := Dying)], waitLock := None,
         exited := s.exited[x.pid := status])
    case SwitchOut => Goto(s, p, Gone)
    case Wait => Goto(s, p, Waiting)
    case LockWait => Goto(s, p, Look(0, false)).(waitLock := Some(p))
    case Skip => Goto(s, p, Look(x.pc.k + 1, x.pc.havekids || ChildOf(s.procs[x.pc.k], p)))
    case Reap =>
      var y := s.procs[x.pc.k];
      Goto(s.(procs := s.procs[x.pc.k := FREE], reaped := s.reaped + [(y.pid, y.xstate)]), p, Body).(waitLock := None)
    case GiveUp => Goto(s, p, Body).(waitLock := None)
    case Drop => Goto(s, p, Mark).(waitLock := None)
    case Sleep => s.(procs := s.procs[p := x.(state := SLEEPING, pc := Asleep)])
    case Block => s.(procs := s.procs[p := x.(state := SLEEPING)])
    case Wake => s.(procs := s.procs[p := x.(state := RUNNABLE)])
    case Dispatch => s.(procs := s.procs[p := x.(state := RUNNING, pc := if x.pc == Asleep then Waiting else x.pc)])
  }

  // --------------------------------------------------------------- invariant

  predicate Live(x: Proc) { x.state == SLEEPING || x.state == RUNNABLE || x.state == RUNNING }

  predicate HoldsWait(pc: Pc) { pc.Reparent? || pc.WakeInit? || pc.WakeParent? || pc.Die? || pc.Look? }

  /** An exiting process has already given entry `c` away. */
  predicate GivenAway(pc: Pc, c: nat) {
    (pc.Reparent? && c < pc.k) || (pc.WakeInit? && c <= pc.k) || pc.WakeParent? || pc.Die? || pc.Dying? || pc.Gone?
  }

  /** Asleep in kwait, or past the point of no return on the way there. */
  predicate InWait(x: Proc) { x.pc.Mark? || (x.pc.Asleep? && x.state == SLEEPING) }

  /** What every process keeps about itself. */
  ghost predicate ProcInv(s: State, p: nat)
    requires p < |s.procs|
  {
    var x := s.procs[p];
    && (HoldsWait(x.pc) <==> s.waitLock == Some(p))
    && (x.state == UNUSED || x.state == USED ==> x.pc == Body)
    && (x.state == UNUSED ==> x.parent == None)
    && (x.state == ZOMBIE <==> x.pc.Dying? || x.pc.Gone?)
    && (x.pc.Asleep? ==> x.state == SLEEPING || x.state == RUNNABLE)
    && (!x.pc.Body? && !x.pc.Asleep? && !x.pc.Dying? && !x.pc.Gone? && !x.pc.Waiting? ==> x.state == RUNNING)
    && (x.pc.Waiting? ==> x.state == RUNNING)
    && (GivenAway(x.pc, 0) || x.pc.Exiting? || x.pc.Reparent? || x.pc.WakeInit? ==> p != 0)
    && (x.pc.Look? ==> x.pc.k <= |s.procs|) && (x.pc.Reparent? ==> x.pc.k <= |s.procs|)
    && (x.pc.WakeInit? ==> x.pc.k < |s.procs|)
    && (x.pc.Forked? || x.pc.Linked? ==>
          && x.pc.child < |s.procs| && x.pc.child != p
          && s.procs[x.pc.child].state == USED && s.procs[x.pc.child].maker == p
          && s.procs[x.pc.child].parent == if x.pc.Linked? then Some(p) else None)
    && (x.state == USED && x.parent.Some? ==> x.parent == Some(x.maker) && x.maker < |s.procs| && s.procs[x.maker].pc == Linked(p))
  }

  /** What every entry keeps with its parent. */
  ghost predicate ChildInv(s: State, c: nat)
    requires c < |s.procs|
  {
    var x := s.procs[c];
    && (c != 0 && x.state != UNUSED && x.state != USED ==> x.parent.Some?)
    && (x.parent.Some? ==>
          var q := x.parent.value;
          && q < |s.procs| && q != c && Live(s.procs[q]) && !GivenAway(s.procs[q].pc, c)
          && (s.procs[q].pc.Look? && c < s.procs[q].pc.k ==> s.procs[q].pc.havekids && x.state != ZOMBIE)
          && (x.pc == Die ==> !InWait(s.procs[q]))
          && (x.state == ZOMBIE && InWait(s.procs[q]) ==> WakePending(s, q)))
  }

  /** The holder of wait_lock is about to wake `q`. */
  ghost predicate WakePending(s: State, q: nat) {
    q == 0 && s.waitLock.Some? && s.waitLock.value < |s.procs| && s.procs[s.waitLock.value].pc.WakeInit?
  }

  ghost predicate PidInv(s: State, p: nat)
    requires p < |s.procs|
  {
    var x := s.procs[p];
    x.state != UNUSED ==>
      && 0 < x.pid < s.nextpid
      && (x.state == ZOMBIE ==> x.pid in s.exited && s.exited[x.pid] == x.xstate)
      && (forall i :: 0 <= i < |s.reaped| ==> s.reaped[i].0 != x.pid)
  }

  ghost predicate ReapInv(s: State) {
    && (forall i :: 0 <= i < |s.reaped| ==>
          s.reaped[i].0 < s.nextpid && s.reaped[i].0 in s.exited && s.exited[s.reaped[i].0] == s.reaped[i].1)
    && (forall i, j :: 0 <= i < j < |s.reaped| ==> s.reaped[i].0 != s.reaped[j].0)
    && (forall p, q {:trigger SamePid(s, p, q)} :: 0 <= p < q < |s.procs| ==> !SamePid(s, p, q))
    && (forall pid :: pid in s.exited ==> pid < s.nextpid)
  }

  predicate SamePid(s: State, p: int, q: int) {
    && 0 <= p < |s.procs| && 0 <= q < |s.procs|
    && s.procs[p].state != UNUSED && s.procs[q].state != UNUSED && s.procs[p].pid == s.procs[q].pid
  }

  ghost predicate Inv(s: State) {
    && Structure(s)
    && (forall p {:trigger PidInv(s, p)} :: 0 <= p < |s.procs| ==> PidInv(s, p))
    && ReapInv(s)
  }

  /** Entries other than the ones a step touches, and their parents' view of them. */
  ghost predicate Structure(s: State) {
    && 0 < |s.procs| && Live(s.procs[0]) && s.procs[0].pid == 1 && s.procs[0].parent == None
    && (s.waitLock.Some? ==> s.waitLock.value < |s.procs|)
    && (forall p {:trigger ProcInv(s, p)} :: 0 <= p < |s.procs| ==> ProcInv(s, p))
    && (forall p {:trigger ChildInv(s, p)} :: 0 <= p < |s.procs| ==> ChildInv(s, p))
  }

  /** What a step of `p` may rely on, at the entries that matter to entry `q`. */
  ghost predicate Near(s: State, p: nat, q: nat) {
    && p < |s.procs| && q < |s.procs| && Live(s.procs[0]) && s.procs[0].parent == None
    && ProcInv(s, p) && ChildInv(s, p) && ProcInv(s, q) && ChildInv(s, q) && ProcInv(s, 0)
    && (s.procs[q].parent.Some? ==> ProcInv(s, s.procs[q].parent.value))
    && (s.procs[p].pc.Forked? || s.procs[p].pc.Linked? ==> ProcInv(s, s.procs[p].pc.child))
  }

  ghost predicate Known(s: State, p: nat, a: Action, q: nat) {
    Enabled(s, p, a) && Near(s, p, q) && (a.Allocate? ==> ProcInv(s, a.child))
  }

  // another entry changes: kfork and the end of kwait

  lemma AllocateKeeps(s: State, p: nat, c: nat, q: nat, s': State)
    requires Near(s, p, q) && s.procs[p].state == RUNNING && s.procs[p].pc == Body && c < |s.procs| && s.procs[c].state == UNUSED && ProcInv(s, c)
    requires s' == Goto(s.(procs := s.procs[c := Proc(USED, None, s.nextpid, 0, Body, p)], nextpid := s.nextpid + 1), p, Forked(c))
    ensures ProcInv(s', q) && ChildInv(s', q)
  {
  }

  lemma AbortKeeps(s: State, p: nat, q: nat, s': State)
    requires Near(s, p, q) && s.procs[p].pc.Forked?
    requires s' == Goto(s.(procs := s.procs[s.procs[p].pc.child := FREE]), p, Body)
    ensures ProcInv(s', q) && ChildInv(s', q)
  {
  }

  lemma LinkKeeps(s: State, p: nat, c: nat, q: nat, s': State)
    requires Near(s, p, q) && s.procs[p].pc == Forked(c) && s.waitLock == None
    requires s' == Goto(s.(procs := s.procs[c := s.procs[c].(parent := Some(p))]), p, Linked(c))
    ensures ProcInv(s', q) && ChildInv(s', q)
  {
  }

  lemma ReadyKeeps(s: State, p: nat, c: nat, q: nat, s': State)
    requires Near(s, p, q) && s.procs[p].pc == Linked(c)
    requires s' == Goto(s.(procs := s.procs[c := s.procs[c].(state := RUNNABLE)]), p, Body)
    ensures ProcInv(s', q) && ChildInv(s', q)
  {
  }

  lemma ReapKeeps(s: State, p: nat, r: seq<(nat, int)>, q: nat, s': State)
    requires Near(s, p, q) && s.procs[p].pc.Look? && s.procs[p].pc.k < |s.procs| && ChildOf(s.procs[s.procs[p].pc.k], p) && s.procs[s.procs[p].pc.k].pc == Gone
    requires s' == Goto(s.(procs := s.procs[s.procs[p].pc.k := FREE], reaped := r), p, Body).(waitLock := None)
    ensures ProcInv(s', q) && ChildInv(s', q)
  {
  }

  lemma AdoptKeeps(s: State, p: nat, k: nat, q: nat, s': State)
    requires Near(s, p, q) && s.procs[p].pc == Reparent(k) && k < |s.procs| && ChildOf(s.procs[k], p)
    requires s' == Goto(s.(procs := s.procs[k := s.procs[k].(parent := Some(0))]), p, WakeInit(k))
    ensures ProcInv(s', q) && ChildInv(s', q)
  {
  }

  // only the place of `p`, and wait_lock, change

  lemma LeaveBody(s: State, p: nat, pc: Pc, q: nat, s': State)
    requires Near(s, p, q) && s.procs[p].state == RUNNING && s.procs[p].pc == Body && (pc == Waiting || (pc == Exiting && p != 0))
    requires s' == Goto(s, p, pc)
    ensures ProcInv(s', q) && ChildInv(s', q)
  {
  }

  lemma TakeLock(s: State, p: nat, pc: Pc, q: nat, s': State)
    requires Near(s, p, q) && s.waitLock == None && ((s.procs[p].pc == Exiting && pc == Reparent(0)) || (s.procs[p].pc == Waiting && pc == Look(0, false)))
    requires s' == Goto(s, p, pc).(waitLock := Some(p))
    ensures ProcInv(s', q) && ChildInv(s', q)
  {
  }

  lemma PassKeeps(s: State, p: nat, k: nat, q: nat, s': State)
    requires Near(s, p, q) && s.procs[p].pc == Reparent(k) && (k == |s.procs| || (k < |s.procs| && !ChildOf(s.procs[k], p)))
    requires s' == Goto(s, p, if k == |s.procs| then WakeParent else Reparent(k + 1))
    ensures ProcInv(s', q) && ChildInv(s', q)
  {
  }

  lemma SkipKeeps(s: State, p: nat, k: nat, kids: bool, q: nat, s': State)
    requires Near(s, p, q) && s.procs[p].pc == Look(k, kids) && k < |s.procs| && !(ChildOf(s.procs[k], p) && s.procs[k].state == ZOMBIE)
    requires s' == Goto(s, p, Look(k + 1, kids || ChildOf(s.procs[k], p)))
    ensures ProcInv(s', q) && ChildInv(s', q)
  {
  }

  lemma GiveUpKeeps(s: State, p: nat, q: nat, s': State)
    requires Near(s, p, q) && s.procs[p].pc.Look?
    requires s' == Goto(s, p, Body).(waitLock := None)
    ensures ProcInv(s', q) && ChildInv(s', q)
  {
  }

  lemma DropKeeps(s: State, p: nat, q: nat, s': State)
    requires Near(s, p, q) && s.procs[p].pc == Look(|s.procs|, true)
    requires s' == Goto(s, p, Mark).(waitLock := None)
    ensures ProcInv(s', q) && ChildInv(s', q)
  {
  }

  lemma SwitchOutKeeps(s: State, p: nat, q: nat, s': State)
    requires Near(s, p, q) && s.procs[p].pc == Dying
    requires s' == Goto(s, p, Gone)
    ensures ProcInv(s', q) && ChildInv(s', q)
  {
  }

  // wakeups

  lemma NudgedProc(s: State, r: nat, q: nat)
    requires r < |s.procs| && q < |s.procs| && ProcInv(s, q)
    ensures ProcInv(Nudge(s, r), q)
  {
  }

  lemma DieProc(s: State, p: nat, q: nat)
    requires p < |s.procs| && q < |s.procs| && ProcInv(s, p) && ProcInv(s, q) && s.procs[p].pc == WakeParent
    ensures ProcInv(Goto(s, p, Die), q)
  {
  }

  lemma NextProc(s: State, p: nat, k: nat, q: nat)
    requires p < |s.procs| && q < |s.procs| && ProcInv(s, p) && ProcInv(s, q) && s.procs[p].pc == WakeInit(k)
    ensures ProcInv(Goto(s, p, Reparent(k + 1)), q)
  {
  }

  lemma NudgeInitChild(s: State, p: nat, k: nat, q: nat)
    requires Near(s, p, q) && s.procs[p].pc == WakeInit(k) && s.procs[0].pc != Mark
    ensures ChildInv(Goto(Nudge(s, 0), p, Reparent(k + 1)), q)
  {
  }

  lemma NudgeInitKeeps(s: State, p: nat, k: nat, q: nat, s': State)
    requires Near(s, p, q) && s.procs[p].pc == WakeInit(k) && s.procs[0].pc != Mark
    requires s' == Goto(Nudge(s, 0), p, Reparent(k + 1))
    ensures ProcInv(s', q) && ChildInv(s', q)
  {
    NudgedProc(s, 0, p);
    NudgedProc(s, 0, q);
    NextProc(Nudge(s, 0), p, k, q);
    NudgeInitChild(s, p, k, q);
  }

  lemma NudgeParentChild(s: State, p: nat, r: nat, q: nat)
    requires Near(s, p, q) && s.procs[p].pc == WakeParent && s.procs[p].parent == Some(r) && r < |s.procs| && s.procs[r].pc != Mark
    ensures ChildInv(Goto(Nudge(s, r), p, Die), q)
  {
  }

  lemma NudgeParentKeeps(s: State, p: nat, r: nat, q: nat, s': State)
    requires Near(s, p, q) && s.procs[p].pc == WakeParent && s.procs[p].parent == Some(r) && r < |s.procs| && s.procs[r].pc != Mark
    requires s' == Goto(Nudge(s, r), p, Die)
    ensures ProcInv(s', q) && ChildInv(s', q)
  {
    NudgedProc(s, r, p);
    NudgedProc(s, r, q);
    DieProc(Nudge(s, r), p, q);
    NudgeParentChild(s, p, r, q);
  }

  // `p` changes its own state

  lemma DieKeeps(s: State, p: nat, status: int, e: map<nat, int>, q: nat, s': State)
    requires Near(s, p, q) && s.procs[p].pc == Die
    requires s' == s.(procs := s.procs[p := s.procs[p].(state := ZOMBIE, xstate := status, pc := Dying)], waitLock := None, exited := e)
    ensures ProcInv(s', q) && ChildInv(s', q)
  {
  }

  lemma SleepKeeps(s: State, p: nat, q: nat, s': State)
    requires Near(s, p, q) && s.procs[p].pc == Mark
    requires s' == s.(procs := s.procs[p := s.procs[p].(state := SLEEPING, pc := Asleep)])
    ensures ProcInv(s', q) && ChildInv(s', q)
  {
  }

  lemma BlockKeeps(s: State, p: nat, q: nat, s': State)
    requires Near(s, p, q) && s.procs[p].state == RUNNING && s.procs[p].pc == Body
    requires s' == s.(procs := s.procs[p := s.procs[p].(state := SLEEPING)])
    ensures ProcInv(s', q) && ChildInv(s', q)
  {
  }

  lemma WakeKeeps(s: State, p: nat, q: nat, s': State)
    requires Near(s, p, q) && s.procs[p].state == SLEEPING && s.procs[p].pc != Mark
    requires s' == s.(procs := s.procs[p := s.procs[p].(state := RUNNABLE)])
    ensures ProcInv(s', q) && ChildInv(s', q)
  {
  }

  lemma DispatchKeeps(s: State, p: nat, q: nat, s': State)
    requires Near(s, p, q) && s.procs[p].state == RUNNABLE
    requires s' == s.(procs := s.procs[p := s.procs[p].(state := RUNNING, pc := if s.procs[p].pc == Asleep then Waiting else s.procs[p].pc)])
    ensures ProcInv(s', q) && ChildInv(s', q)
  {
  }

  /** kfork: another entry is made, linked or started. */
  lemma ForkSteps(s: State, p: nat, a: Action, q: nat)
    requires Known(s, p, a, q) && (a.Allocate? || a.Abort? || a.Link? || a.Ready?)
    ensures ProcInv(Step(s, p, a), q) && ChildInv(Step(s, p, a), q)
  {
    var s' := Step(s, p, a);
    match a
    case Allocate(c) => AllocateKeeps(s, p, c, q, s');
    case Abort => AbortKeeps(s, p, q, s');
    case Link => LinkKeeps(s, p, s.procs[p].pc.child, q, s');
    case Ready => ReadyKeeps(s, p, s.procs[p].pc.child, q, s');
  }

  /** kexit and reparent: the exiting entry moves on, its children change parent. */
  lemma ExitSteps(s: State, p: nat, a: Action, q: nat)
    requires Known(s, p, a, q) && (a.Exit? || a.LockExit? || a.Adopt? || a.NudgeInit? || a.NudgeParent? || a.BecomeZombie? || a.SwitchOut?)
    ensures ProcInv(Step(s, p, a), q) && ChildInv(Step(s, p, a), q)
  {
    var s' := Step(s, p, a);
    match a
    case Exit => LeaveBody(s, p, Exiting, q, s');
    case LockExit => TakeLock(s, p, Reparent(0), q, s');
    case Adopt =>
      var k := s.procs[p].pc.k;
      if k < |s.procs| && ChildOf(s.procs[k], p) { AdoptKeeps(s, p, k, q, s'); } else { PassKeeps(s, p, k, q, s'); }
    case NudgeInit => NudgeInitKeeps(s, p, s.procs[p].pc.k, q, s');
    case NudgeParent => NudgeParentKeeps(s, p, s.procs[p].parent.value, q, s');
    case BecomeZombie(status) => DieKeeps(s, p, status, s'.exited, q, s');
    case SwitchOut => SwitchOutKeeps(s, p, q, s');
  }

  /** kwait: the waiting entry moves on, or frees a zombie. */
  lemma WaitSteps(s: State, p: nat, a: Action, q: nat)
    requires Known(s, p, a, q) && (a.Wait? || a.LockWait? || a.Skip? || a.GiveUp? || a.Drop? || a.Reap?)
    ensures ProcInv(Step(s, p, a), q) && ChildInv(Step(s, p, a), q)
  {
    var s' := Step(s, p, a);
    match a
    case Wait => LeaveBody(s, p, Waiting, q, s');
    case LockWait => TakeLock(s, p, Look(0, false), q, s');
    case Skip => SkipKeeps(s, p, s.procs[p].pc.k, s.procs[p].pc.havekids, q, s');
    case GiveUp => GiveUpKeeps(s, p, q, s');
    case Drop => DropKeeps(s, p, q, s');
    case Reap => ReapKeeps(s, p, s'.reaped, q, s');
  }

  /** sleep, wakeup and dispatch: an entry changes its own state. */
  lemma StateSteps(s: State, p: nat, a: Action, q: nat)
    requires Known(s, p, a, q) && (a.Sleep? || a.Block? || a.Wake? || a.Dispatch?)
    ensures ProcInv(Step(s, p, a), q) && ChildInv(Step(s, p, a), q)
  {
    var s' := Step(s, p, a);
    match a
    case Sleep => SleepKeeps(s, p, q, s');
    case Block => BlockKeeps(s, p, q, s');
    case Wake => WakeKeeps(s, p, q, s');
    case Dispatch => DispatchKeeps(s, p, q, s');
  }

  lemma EntryKept(s: State, p: nat, a: Action, q: nat)
    requires Known(s, p, a, q)
    ensures ProcInv(Step(s, p, a), q) && ChildInv(Step(s, p, a), q)
  {
    if a.Allocate? || a.Abort? || a.Link? || a.Ready? {
      ForkSteps(s, p, a, q);
    } else if a.Wait? || a.LockWait? || a.Skip? || a.GiveUp? || a.Drop? || a.Reap? {
      WaitSteps(s, p, a, q);
    } else if a.Sleep? || a.Block? || a.Wake? || a.Dispatch? {
      StateSteps(s, p, a, q);
    } else {
      ExitSteps(s, p, a, q);
    }
  }

  lemma KnownHere(s: State, p: nat, a: Action, q: nat)
    requires Structure(s) && Enabled(s, p, a) && q < |s.procs|
    ensures Known(s, p, a, q)
  {
    assert ProcInv(s, p) && ChildInv(s, p) && ProcInv(s, q) && ChildInv(s, q) && ProcInv(s, 0);
    if s.procs[q].parent.Some? { assert ProcInv(s, s.procs[q].parent.value); }
    if a.Allocate? { assert ProcInv(s, a.child); }
    if s.procs[p].pc.Forked? || s.procs[p].pc.Linked? { assert ProcInv(s, s.procs[p].pc.child); }
  }

  /** Init stays alive, without a parent, and keeps pid 1. */
  lemma InitStays(s: State, p: nat, a: Action)
    requires Known(s, p, a, 0) && s.procs[0].pid == 1 && (s.waitLock.Some? ==> s.waitLock.value < |s.procs|)
    requires a.Adopt? && s.procs[p].pc.k < |s.procs| ==> ChildInv(s, s.procs[p].pc.k)
    ensures var s' := Step(s, p, a);
      && |s'.procs| == |s.procs| && Live(s'.procs[0]) && s'.procs[0].pid == 1 && s'.procs[0].parent == None
      && (s'.waitLock.Some? ==> s'.waitLock.value < |s'.procs|)
  {
  }

  lemma StructureKept(s: State, p: nat, a: Action)
    requires Structure(s) && Enabled(s, p, a)
    ensures Structure(Step(s, p, a))
  {
    KnownHere(s, p, a, 0);
    if a.Adopt? && s.procs[p].pc.k < |s.procs| { assert ChildInv(s, s.procs[p].pc.k); }
    InitStays(s, p, a);
    var s' := Step(s, p, a);
    forall q | 0 <= q < |s'.procs| ensures ProcInv(s', q) && ChildInv(s', q) {
      KnownHere(s, p, a, q);
      EntryKept(s, p, a, q);
    }
  }

  /** What a step does to the numbers: entries keep their pid, are freed, or get the next one. */
  ghost predicate PidStep(s: State, s': State, q: nat)
    requires q < |s.procs| == |s'.procs|
  {
    var x, y := s.procs[q], s'.procs[q];
    || y.state == UNUSED
    || (x.state != UNUSED && x.pid == y.pid && (y.state == ZOMBIE ==> x.xstate == y.xstate && x.state == ZOMBIE))
    || (x.state != UNUSED && x.pid == y.pid && x.pid in s'.exited && s'.exited[x.pid] == y.xstate)
    || (x.state == UNUSED && y.state == USED && y.pid == s.nextpid < s'.nextpid)
  }

  lemma PidSteps(s: State, p: nat, a: Action, q: nat)
    requires Structure(s) && Enabled(s, p, a) && q < |s.procs|
    ensures PidStep(s, Step(s, p, a), q)
    ensures s.procs[q].state == UNUSED && Step(s, p, a).procs[q].state != UNUSED ==> a == Allocate(q)
  {
    assert ProcInv(s, p) && ProcInv(s, q);
    if a.Adopt? && s.procs[p].pc.k < |s.procs| { assert ProcInv(s, s.procs[p].pc.k); }
  }

  /** Each kind of step on the records of exits. */
  lemma Records(s: State, p: nat, a: Action)
    requires Inv(s) && Enabled(s, p, a)
    ensures var s' := Step(s, p, a);
      && s.nextpid <= s'.nextpid
      && (s'.exited == s.exited || (a.BecomeZombie? && s'.exited == s.exited[s.procs[p].pid := s'.procs[p].xstate]))
      && (s'.reaped == s.reaped ||
           (a.Reap? && s.procs[p].pc.k != p && s.procs[s.procs[p].pc.k].state == ZOMBIE && s'.procs[s.procs[p].pc.k].state == UNUSED
            && s'.reaped == s.reaped + [(s.procs[s.procs[p].pc.k].pid, s.procs[s.procs[p].pc.k].xstate)]))
  {
    assert ProcInv(s, p);
    if a.Reap? { assert ProcInv(s, s.procs[p].pc.k) && ChildInv(s, s.procs[p].pc.k); }
  }

  /** Two entries never share a pid, in either order. */
  lemma PidsDiffer(s: State, p: nat, q: nat)
    requires ReapInv(s) && p < |s.procs| && q < |s.procs| && p != q
    requires s.procs[p].state != UNUSED && s.procs[q].state != UNUSED
    ensures s.procs[p].pid != s.procs[q].pid
  {
    assert !SamePid(s, if p < q then p else q, if p < q then q else p);
  }

  lemma PidKept(s: State, p: nat, a: Action, q: nat)
    requires Inv(s) && Enabled(s, p, a) && q < |s.procs|
    ensures PidInv(Step(s, p, a), q)
  {
    var s' := Step(s, p, a);
    assert PidInv(s, q) && PidInv(s, p) && ProcInv(s, p);
    PidSteps(s, p, a, q);
    Records(s, p, a);
    if s'.procs[q].state != UNUSED && s.procs[q].state != UNUSED {
      if p != q { PidsDiffer(s, p, q); }
      if a.Reap? && s.procs[p].pc.k != q { PidsDiffer(s, s.procs[p].pc.k, q); }
    }
  }

  lemma PidPairKept(s: State, p: nat, a: Action, q: nat, r: nat)
    requires Inv(s) && Enabled(s, p, a) && q < r < |s.procs|
    ensures !SamePid(Step(s, p, a), q, r)
  {
    assert !SamePid(s, q, r) && PidInv(s, q) && PidInv(s, r);
    PidSteps(s, p, a, q);
    PidSteps(s, p, a, r);
  }

  lemma PidsKept(s: State, p: nat, a: Action)
    requires Inv(s) && Enabled(s, p, a)
    ensures forall q {:trigger PidInv(Step(s, p, a), q)} :: 0 <= q < |s.procs| ==> PidInv(Step(s, p, a), q)
    ensures ReapInv(Step(s, p, a))
  {
    var s' := Step(s, p, a);
    forall q | 0 <= q < |s.procs| ensures PidInv(s', q) { PidKept(s, p, a, q); }
    forall q, r | 0 <= q < r < |s'.procs| ensures !SamePid(s', q, r) { PidPairKept(s, p, a, q, r); }
    Records(s, p, a);
    assert PidInv(s, p);
    if a.Reap? { assert PidInv(s, s.procs[p].pc.k); }
  }

  // --------------------------------------------------------------- every run

  datatype Move = Move(proc: nat, action: Action)

  ghost predicate LegalRun(s: State, ms: seq<Move>)
    decreases |ms|
  {
    ms == [] || (Enabled(s, ms[0].proc, ms[0].action) && LegalRun(Step(s, ms[0].proc, ms[0].action), ms[1..]))
  }

  function Run(s: State, ms: seq<Move>): State
    requires LegalRun(s, ms)
    decreases |ms|
  {
    if ms == [] then s else Run(Step(s, ms[0].proc, ms[0].action), ms[1..])
  }

  lemma {:induction false} RunInv(s: State, ms: seq<Move>)
    requires Inv(s) && LegalRun(s, ms)
    ensures Inv(Run(s, ms))
    decreases |ms|
  {
    if ms != [] {
      StepInv(s, ms[0].proc, ms[0].action);
      RunInv(Step(s, ms[0].proc, ms[0].action), ms[1..]);
    }
  }

  /** After `userinit`: only init exists. */
  ghost predicate Init(s: State) {
    && 0 < |s.procs| && s.procs[0] == Proc(RUNNABLE, None, 1, 0, Body, 0)
    && (forall p :: 0 < p < |s.procs| ==> s.procs[p] == FREE)
    && s.waitLock == None && s.nextpid == 2 && s.exited == map[] && s.reaped == []
  }

  lemma InitInv(s: State)
    requires Init(s)
    ensures Inv(s)
  {
    forall p | 0 <= p < |s.procs| ensures ProcInv(s, p) && ChildInv(s, p) && PidInv(s, p) { }
    forall p, q | 0 <= p < q < |s.procs| ensures !SamePid(s, p, q) { }
  }

  lemma StepInv(s: State, p: nat, a: Action)
    requires Inv(s) && Enabled(s, p, a)
    ensures Inv(Step(s, p, a))
  {
    StructureKept(s, p, a);
    PidsKept(s, p, a);
  }

  lemma {:induction false} InvAfter(s: State, ms: seq<Move>, k: nat)
    requires Inv(s) && LegalRun(s, ms) && k <= |ms|
    ensures Inv(After(s, ms, k))
  {
    assert ms[..0] == [];
    if k > 0 {
      InvAfter(s, ms, k - 1);
      RunPrefix(s, ms, k - 1);
      StepInv(After(s, ms, k - 1), ms[k - 1].proc, ms[k - 1].action);
    }
  }

  /** The parent is a process that can still wait: neither free, nor half made, nor a zombie. */
  ghost predicate HasLiveParent(s: State, p: nat)
    requires p < |s.procs|
  {
    s.procs[p].parent.Some? && s.procs[p].parent.value < |s.procs| && Live(s.procs[s.procs[p].parent.value])
  }

  /**
   Every interleaving from boot.  A process from SLEEPING through ZOMBIE other
   than init has a live parent; while wait_lock is free nobody asleep in kwait
   has a zombie child; statuses returned by kwait belong to distinct exits, and
   each is the status that process exited with.
   */
  lemma FamilyOrder(s: State, ms: seq<Move>)
    requires Init(s) && LegalRun(s, ms)
    ensures var r := Run(s, ms);
      && (forall p :: 0 < p < |r.procs| && r.procs[p].state != UNUSED && r.procs[p].state != USED ==> HasLiveParent(r, p))
      && (forall p, c :: 0 <= p < |r.procs| && 0 <= c < |r.procs| && r.waitLock == None && InWait(r.procs[p]) ==>
            !(ChildOf(r.procs[c], p) && r.procs[c].state == ZOMBIE))
      && (forall i, j :: 0 <= i < j < |r.reaped| ==> r.reaped[i].0 != r.reaped[j].0)
      && (forall i :: 0 <= i < |r.reaped| ==> r.reaped[i].0 in r.exited && r.exited[r.reaped[i].0] == r.reaped[i].1)
      && 0 < |r.procs| && Live(r.procs[0]) && r.procs[0].pid == 1
  {
    InitInv(s);
    RunInv(s, ms);
    var r := Run(s, ms);
    forall p | 0 < p < |r.procs| && r.procs[p].state != UNUSED && r.procs[p].state != USED ensures HasLiveParent(r, p) {
      assert ChildInv(r, p);
    }
    forall p, c | 0 <= p < |r.procs| && 0 <= c < |r.procs| && InWait(r.procs[p]) && ChildOf(r.procs[c], p) && r.waitLock == None
      ensures r.procs[c].state != ZOMBIE
    {
      assert ChildInv(r, c);
    }
  }

  /** A scan that ends without having seen a child means that there is none. */
  lemma NoChildrenLeft(s: State, p: nat)
    requires Inv(s) && p < |s.procs| && s.procs[p].pc == Look(|s.procs|, false)
    ensures forall c :: 0 <= c < |s.procs| ==> !ChildOf(s.procs[c], p)
  {
    forall c | 0 <= c < |s.procs| ensures !ChildOf(s.procs[c], p) {
      assert ChildInv(s, c);
    }
  }

  /** Only the current parent reaps, only a zombie is reaped, and its entry is then free. */
  lemma ReapedByParent(s: State, p: nat)
    requires Inv(s) && Enabled(s, p, Reap)
    ensures var c := s.procs[p].pc.k;
      && s.waitLock == Some(p) && s.procs[c].parent == Some(p) && s.procs[c].state == ZOMBIE
      && Step(s, p, Reap).procs[c] == FREE
      && s.procs[c].pid in s.exited
      && Step(s, p, Reap).reaped == s.reaped + [(s.procs[c].pid, s.exited[s.procs[c].pid])]
  {
    var c := s.procs[p].pc.k;
    assert ProcInv(s, p) && ProcInv(s, c) && PidInv(s, c) && ChildInv(s, c);
  }

  // ----------------------------------------------------------------- getppid

  function Getppid(s: State, p: nat): nat
    requires p < |s.procs|
  {
    match s.procs[p].parent
    case Some(q) => if q < |s.procs| then s.procs[q].pid else 0
    case None => 1
  }

  /**
   `sys_getppid`, whose two reads nothing interrupts on one CPU: a running
   process gets the pid of a live process, which is 1 exactly for init and for
   the children of init, orphans included.
   */
  lemma GetppidLive(s: State, p: nat)
    requires Inv(s) && p < |s.procs| && s.procs[p].state == RUNNING
    ensures exists q :: 0 <= q < |s.procs| && Live(s.procs[q]) && s.procs[q].pid == Getppid(s, p)
    ensures Getppid(s, p) == 1 <==> p == 0 || s.procs[p].parent == Some(0)
  {
    assert ChildInv(s, p) && ProcInv(s, 0) && PidInv(s, 0);
    if p == 0 {
      assert Live(s.procs[0]) && s.procs[0].pid == 1;
    } else {
      var q := s.procs[p].parent.value;
      assert Live(s.procs[q]) && s.procs[q].pid == Getppid(s, p);
      assert q != 0 ==> !SamePid(s, 0, q);
    }
  }

  // -------------------------------------------------- one move after another

  lemma {:induction false} RunPrefix(s: State, ms: seq<Move>, k: nat)
    requires LegalRun(s, ms) && k <= |ms|
    ensures LegalRun(s, ms[..k])
    ensures k < |ms| ==> Enabled(Run(s, ms[..k]), ms[k].proc, ms[k].action)
    ensures k < |ms| ==> LegalRun(s, ms[..k + 1]) && Run(s, ms[..k + 1]) == Step(Run(s, ms[..k]), ms[k].proc, ms[k].action)
    decreases |ms|
  {
    if k > 0 {
      RunPrefix(Step(s, ms[0].proc, ms[0].action), ms[1..], k - 1);
      assert ms[..k][1..] == ms[1..][..k - 1];
      if k < |ms| { assert ms[..k + 1][1..] == ms[1..][..k]; }
    } else if ms != [] {
      assert ms[..1][1..] == [];
    }
  }

  /** The state after the first `k` moves. */
  function After(s: State, ms: seq<Move>, k: nat): State
    requires LegalRun(s, ms) && k <= |ms|
  {
    RunPrefix(s, ms, k);
    Run(s, ms[..k])
  }

  /** At move `j` the process with number `pid` called kexit with this status. */
  ghost predicate ExitedAt(s: State, ms: seq<Move>, j: nat, pid: nat, status: int)
    requires LegalRun(s, ms)
  {
    && j < |ms| && ms[j].action == BecomeZombie(status)
    && ms[j].proc < |After(s, ms, j).procs| && After(s, ms, j).procs[ms[j].proc].pid == pid
  }

  lemma {:induction false} ExitsRecorded(s: State, ms: seq<Move>, k: nat, pid: nat)
    requires LegalRun(s, ms) && s.exited == map[] && k <= |ms| && pid in After(s, ms, k).exited
    ensures exists j :: 0 <= j < k && ExitedAt(s, ms, j, pid, After(s, ms, k).exited[pid])
  {
    assert ms[..0] == [];
    if k > 0 {
      RunPrefix(s, ms, k - 1);
      var r, r' := After(s, ms, k - 1), After(s, ms, k);
      if pid in r.exited && r'.exited[pid] == r.exited[pid] {
        ExitsRecorded(s, ms, k - 1, pid);
      } else {
        assert ExitedAt(s, ms, k - 1, pid, r'.exited[pid]);
      }
    }
  }

  /** Every status that kwait returned is what that very process passed to kexit before. */
  lemma ReapedExits(s: State, ms: seq<Move>, i: nat)
    requires Init(s) && LegalRun(s, ms) && i < |Run(s, ms).reaped|
    ensures exists j :: 0 <= j < |ms| && ExitedAt(s, ms, j, Run(s, ms).reaped[i].0, Run(s, ms).reaped[i].1)
  {
    FamilyOrder(s, ms);
    assert ms[..|ms|] == ms;
    assert Run(s, ms) == After(s, ms, |ms|);
    ExitsRecorded(s, ms, |ms|, Run(s, ms).reaped[i].0);
  }

  // -------------------------------------------------------- waiting for children

  ghost predicate HasKid(s: State, p: nat) {
    exists c :: 0 <= c < |s.procs| && ChildOf(s.procs[c], p)
  }

  /** A process that saw a child, or sleeps in kwait because it saw one, has one. */
  ghost predicate KidInv(s: State, p: nat)
    requires p < |s.procs|
  {
    var pc := s.procs[p].pc;
    (pc.Look? && pc.havekids) || pc.Mark? || pc.Asleep? ==> HasKid(s, p)
  }

  /** A child stays its parent's until the parent reaps it or exits. */
  lemma KidStays(s: State, p: nat, a: Action, q: nat, c: nat)
    requires Structure(s) && Enabled(s, p, a) && q < |s.procs| && c < |s.procs| && ChildOf(s.procs[c], q)
    requires p != q || !(a.Adopt? || a.Reap?)
    ensures ChildOf(Step(s, p, a).procs[c], q)
  {
    assert ProcInv(s, p) && ProcInv(s, c) && ChildInv(s, c);
    if s.procs[p].pc.Forked? || s.procs[p].pc.Linked? { assert ProcInv(s, s.procs[p].pc.child); }
  }

  lemma KidOfOther(s: State, p: nat, a: Action, q: nat)
    requires Structure(s) && Enabled(s, p, a) && q < |s.procs| && p != q && KidInv(s, q)
    ensures KidInv(Step(s, p, a), q)
  {
    assert ProcInv(s, p) && ProcInv(s, q);
    if HasKid(s, q) {
      var c :| 0 <= c < |s.procs| && ChildOf(s.procs[c], q);
      KidStays(s, p, a, q, c);
    }
  }

  lemma KidOfSelf(s: State, p: nat, a: Action)
    requires Structure(s) && Enabled(s, p, a) && KidInv(s, p)
    ensures KidInv(Step(s, p, a), p)
  {
    assert ProcInv(s, p);
    if a.Skip? && ChildOf(s.procs[s.procs[p].pc.k], p) {
      KidStays(s, p, a, p, s.procs[p].pc.k);
    } else if HasKid(s, p) && !a.Adopt? && !a.Reap? {
      var c :| 0 <= c < |s.procs| && ChildOf(s.procs[c], p);
      KidStays(s, p, a, p, c);
    }
  }

  ghost predicate KidsOk(s: State, p: nat) {
    Structure(s) && p < |s.procs| && KidInv(s, p)
  }

  lemma KidStep(s: State, p: nat, a: Action, q: nat)
    requires KidsOk(s, q) && Enabled(s, p, a)
    ensures KidsOk(Step(s, p, a), q)
  {
    StructureKept(s, p, a);
    if p == q { KidOfSelf(s, p, a); } else { KidOfOther(s, p, a, q); }
  }

  lemma {:induction false} KidsAfter(s: State, ms: seq<Move>, k: nat, p: nat)
    requires KidsOk(s, p) && LegalRun(s, ms) && k <= |ms|
    ensures KidsOk(After(s, ms, k), p)
  {
    assert ms[..0] == [];
    if k > 0 {
      KidsAfter(s, ms, k - 1, p);
      RunPrefix(s, ms, k - 1);
      KidStep(After(s, ms, k - 1), ms[k - 1].proc, ms[k - 1].action, p);
    }
  }

  /** Every run from boot: whoever is asleep in kwait, or about to be, has a child to wait for. */
  lemma WaitersHaveKids(s: State, ms: seq<Move>, p: nat)
    requires Init(s) && LegalRun(s, ms) && p < |s.procs|
    ensures var r := Run(s, ms); p < |r.procs| && (InWait(r.procs[p]) ==> HasKid(r, p))
  {
    InitInv(s);
    KidsAfter(s, ms, |ms|, p);
    assert ms[..|ms|] == ms;
  }

  // --------------------------------------------------------------- no deadlock

  /** Somebody whose move the holder of wait_lock waits for: it is on its way to sleep, or out of its last swtch. */
  ghost predicate Leaving(s: State, r: int) {
    0 <= r < |s.procs| && (Enabled(s, r, Sleep) || Enabled(s, r, SwitchOut))
  }

  lemma ExiterMoves(s: State, p: nat)
    requires Structure(s) && s.waitLock == Some(p) && p < |s.procs| && ProcInv(s, p) && ChildInv(s, p) && !s.procs[p].pc.Look?
    ensures (exists a :: Enabled(s, p, a)) || (exists r :: Leaving(s, r))
  {
    match s.procs[p].pc {
      case Reparent(_) => assert Enabled(s, p, Adopt);
      case WakeInit(_) =>
        assert ProcInv(s, 0);
        if s.procs[0].pc == Mark { assert Leaving(s, 0); } else { assert Enabled(s, p, NudgeInit); }
      case WakeParent =>
        var q := s.procs[p].parent;
        if q.Some? && s.procs[q.value].pc == Mark {
          assert ProcInv(s, q.value);
          assert Leaving(s, q.value);
        } else {
          assert Enabled(s, p, NudgeParent);
        }
      case Die => assert Enabled(s, p, BecomeZombie(0));
      case _ =>
    }
  }

  lemma WaiterMoves(s: State, p: nat, k: nat)
    requires Structure(s) && s.waitLock == Some(p) && p < |s.procs| && ProcInv(s, p) && s.procs[p].pc.Look? && k == s.procs[p].pc.k
    ensures (exists a :: Enabled(s, p, a)) || (exists r :: Leaving(s, r))
  {
    if k == |s.procs| {
      assert Enabled(s, p, GiveUp);
    } else if !(ChildOf(s.procs[k], p) && s.procs[k].state == ZOMBIE) {
      assert Enabled(s, p, Skip);
    } else {
      assert ProcInv(s, k);
      if s.procs[k].pc == Gone { assert Enabled(s, p, Reap); } else { assert Leaving(s, k); }
    }
  }

  /** Whoever holds wait_lock can move, or waits for a process that can: exits and waits never lock up. */
  lemma HolderMoves(s: State, p: nat)
    requires Inv(s) && s.waitLock == Some(p)
    ensures (exists a :: Enabled(s, p, a)) || (exists r :: Leaving(s, r))
  {
    assert ProcInv(s, p) && ChildInv(s, p);
    if s.procs[p].pc.Look? { WaiterMoves(s, p, s.procs[p].pc.k); } else { ExiterMoves(s, p); }
  }

  // ------------------------------------------------------------------ orphans

  /** Entry `c` is no longer the process `pid`. */
  predicate NotPid(s: State, c: nat, pid: nat) {
    c < |s.procs| && (s.procs[c].state == UNUSED || s.procs[c].pid != pid)
  }

  /** One step leaves a process its parent, gives it to init, or ends it. */
  lemma ParentStep(s: State, p: nat, a: Action, c: nat)
    requires Inv(s) && Enabled(s, p, a) && c < |s.procs| && s.procs[c].state != UNUSED && s.procs[c].parent.Some?
    ensures var s' := Step(s, p, a); NotPid(s', c, s.procs[c].pid) || s'.procs[c].parent == s.procs[c].parent || s'.procs[c].parent == Some(0)
  {
    assert ProcInv(s, p) && ProcInv(s, c) && ChildInv(s, c) && PidInv(s, c);
    if s.procs[p].pc.Forked? || s.procs[p].pc.Linked? { assert ProcInv(s, s.procs[p].pc.child); }
  }

  /** Entry `c` is process `pid`, with parent `q` or init, or has ended. */
  ghost predicate ParentIs(s: State, c: nat, pid: nat, q: nat) {
    && c < |s.procs| && pid < s.nextpid
    && (NotPid(s, c, pid) || s.procs[c].parent == Some(q) || s.procs[c].parent == Some(0))
  }

  lemma ParentIsKept(s: State, p: nat, a: Action, c: nat, pid: nat, q: nat)
    requires Inv(s) && Enabled(s, p, a) && ParentIs(s, c, pid, q)
    ensures ParentIs(Step(s, p, a), c, pid, q)
  {
    if NotPid(s, c, pid) { PidSteps(s, p, a, c); } else { ParentStep(s, p, a, c); }
  }

  lemma {:induction false} ParentAfter(s: State, ms: seq<Move>, k: nat, c: nat, pid: nat, q: nat)
    requires Inv(s) && LegalRun(s, ms) && k <= |ms| && ParentIs(s, c, pid, q)
    ensures ParentIs(After(s, ms, k), c, pid, q)
  {
    assert ms[..0] == [];
    if k > 0 {
      ParentAfter(s, ms, k - 1, c, pid, q);
      RunPrefix(s, ms, k - 1);
      InvAfter(s, ms, k - 1);
      ParentIsKept(After(s, ms, k - 1), ms[k - 1].proc, ms[k - 1].action, c, pid, q);
    }
  }

  /** Once its parent has exited, a process that still runs is a child of init, and getppid says 1. */
  lemma OrphanToInit(s: State, ms: seq<Move>, p: nat, c: nat)
    requires Inv(s) && LegalRun(s, ms) && p < |s.procs| && c < |s.procs| && s.procs[c].state != UNUSED && s.procs[c].parent == Some(p)
    requires var r := Run(s, ms); p < |r.procs| && r.procs[p].state == ZOMBIE && !NotPid(r, c, s.procs[c].pid)
    ensures var r := Run(s, ms); c < |r.procs| && r.procs[c].parent == Some(0) && Getppid(r, c) == 1
  {
    RunInv(s, ms);
    assert PidInv(s, c);
    ParentAfter(s, ms, |ms|, c, s.procs[c].pid, p);
    assert ms[..|ms|] == ms;
    var r := Run(s, ms);
    assert ChildInv(r, c) && ProcInv(r, 0);
  }
}
