/**
 Admission to the log, over every interleaving of `begin_op`, `log_write`,
 `end_op` and `sys_sync` by any number of threads.  Each critical section under
 `log.lock` is one step; a thread that would sleep simply has no step until its
 guard holds.  Operations carry numbers and a budget so that the promises can
 be stated; the log itself sees neither.
 */
module LogProtocol {

  import opened Common

  /** What `log.lock` protects, with the pins that `log_write` puts on buffers. */
  datatype Shared = Shared(
    outstanding: int, committing: bool, ncommit: nat, blocks: seq<nat>, pins: map<nat, int>)

  datatype Thread =
    | Outside
    | InOp(op: nat, added: nat)               // between begin_op and end_op
    | Committing(erased: bool)                // in commit(); erased once it has returned
    | Syncing(target: nat, need: set<nat>)    // in sys_sync, waiting for ncommit
    | Synced(need: set<nat>)                  // sys_sync has returned

  /** `ended`: operations past `end_op` but not committed; `durable`: committed ones. */
  datatype System = System(
    log: Shared, threads: seq<Thread>, nextOp: nat, ended: set<nat>, durable: set<nat>)

  // ---------------------------------------------------- the critical sections

  function Pins(pins: map<nat, int>, b: nat): int { if b in pins then pins[b] else 0 }

  function Pin(pins: map<nat, int>, b: nat, delta: int): map<nat, int> {
    pins[b := Pins(pins, b) + delta]
  }

  predicate Admits(l: Shared) {
    !l.committing && |l.blocks| + (l.outstanding + 1) * MAXOPBLOCKS <= LOGBLOCKS
  }

  function Begun(l: Shared): Shared {
    if Admits(l) then l.(outstanding := l.outstanding + 1) else l
  }

  predicate EndPanics(l: Shared) { l.committing }

  function Ended(l: Shared): Shared {
    l.(outstanding := l.outstanding - 1, committing := l.committing || l.outstanding == 1)
  }

  predicate WritePanics(l: Shared) {
    |l.blocks| >= LOGBLOCKS || l.outstanding < 1
  }

  function Recorded(l: Shared, b: nat): Shared {
    if b in l.blocks then l else l.(blocks := l.blocks + [b], pins := Pin(l.pins, b, 1))
  }

  function UnpinAll(pins: map<nat, int>, bs: seq<nat>): map<nat, int> {
    if bs == [] then pins else Pin(UnpinAll(pins, bs[..|bs| - 1]), bs[|bs| - 1], -1)
  }

  lemma {:induction false} UnpinAllOf(pins: map<nat, int>, bs: seq<nat>, b: nat)
    requires Distinct(bs)
    ensures Pins(UnpinAll(pins, bs), b) == Pins(pins, b) - if b in bs then 1 else 0
  {
    if bs != [] {
      UnpinAllOf(pins, bs[..|bs| - 1], b);
      assert bs == bs[..|bs| - 1] + [bs[|bs| - 1]];
    }
  }

  /** `commit()` has returned: each logged block was unpinned and the header emptied. */
  function Erased(l: Shared): Shared {
    l.(blocks := [], pins := UnpinAll(l.pins, l.blocks))
  }

  function Finished(l: Shared): Shared {
    l.(committing := false, ncommit := l.ncommit + 1)
  }

  predicate MustWait(l: Shared) { l.committing || l.outstanding > 0 }

  // ------------------------------------------------------------------- steps

  datatype Action = Begin | Record(b: nat) | End | Erase | Finish | Sync | Return | Leave

  ghost predicate Enabled(s: System, t: nat, a: Action) {
    t < |s.threads| &&
    match a
    case Begin => s.threads[t].Outside? && Admits(s.log)
    case Record(b) => s.threads[t].InOp? && (b !in s.log.blocks ==> s.threads[t].added < MAXOPBLOCKS)
    case End => s.threads[t].InOp?
    case Erase => s.threads[t] == Committing(false)
    case Finish => s.threads[t] == Committing(true)
    case Sync => s.threads[t].Outside?
    case Return => s.threads[t].Syncing? && s.log.ncommit >= s.threads[t].target
    case Leave => s.threads[t].Synced?
  }

  function Step(s: System, t: nat, a: Action): System
    requires Enabled(s, t, a)
  {
    match a
    case Begin =>
      s.(log := Begun(s.log), threads := s.threads[t := InOp(s.nextOp, 0)], nextOp := s.nextOp + 1)
    case Record(b) =>
      var added := s.threads[t].added + (if b in s.log.blocks then 0 else 1);
      s.(log := Recorded(s.log, b), threads := s.threads[t := s.threads[t].(added := added)])
    case End =>
      var l := Ended(s.log);
      s.(log := l,
         threads := s.threads[t := if l.outstanding == 0 then Committing(false) else Outside],
         ended := s.ended + {s.threads[t].op})
    case Erase =>
      s.(log := Erased(s.log), threads := s.threads[t := Committing(true)],
         ended := {}, durable := s.durable + s.ended)
    case Finish =>
      s.(log := Finished(s.log), threads := s.threads[t := Outside])
    case Sync =>
      var need := s.ended + s.durable;
      s.(threads := s.threads[t := if MustWait(s.log) then Syncing(s.log.ncommit + 1, need) else Synced(need)])
    case Return =>
      s.(threads := s.threads[t := Synced(s.threads[t].need)])
    case Leave =>
      s.(threads := s.threads[t := Outside])
  }

  ghost predicate Panics(s: System, t: nat, a: Action) {
    || (a.End? && EndPanics(s.log))
    || (a.Record? && WritePanics(s.log))
  }

  // --------------------------------------------------------------- invariant

  function Sum(f: Thread -> nat, ts: seq<Thread>): nat {
    if ts == [] then 0 else f(ts[0]) + Sum(f, ts[1..])
  }

  lemma {:induction false} SumUpdate(f: Thread -> nat, ts: seq<Thread>, t: nat, x: Thread)
    requires t < |ts|
    ensures Sum(f, ts[t := x]) == Sum(f, ts) - f(ts[t]) + f(x)
    ensures f(ts[t]) <= Sum(f, ts)
  {
    if t == 0 {
      assert ts[t := x][1..] == ts[1..];
    } else {
      assert ts[t := x][1..] == ts[1..][t - 1 := x];
      SumUpdate(f, ts[1..], t - 1, x);
    }
  }

  function Active(): Thread -> nat { (x: Thread) => if x.InOp? then 1 else 0 }
  function Committers(): Thread -> nat { (x: Thread) => if x.Committing? then 1 else 0 }
  /** Log slots that admission still owes to a running operation. */
  function Unused(): Thread -> nat {
    (x: Thread) => if x.InOp? && x.added <= MAXOPBLOCKS then MAXOPBLOCKS - x.added else 0
  }

  ghost predicate Distinct(bs: seq<nat>) {
    forall i, j :: 0 <= i < j < |bs| ==> bs[i] != bs[j]
  }

  ghost predicate PinInv(l: Shared, b: nat) {
    Pins(l.pins, b) == if b in l.blocks then 1 else 0
  }

  ghost predicate ThreadInv(s: System, x: Thread) {
    match x
    case InOp(op, added) => added <= MAXOPBLOCKS
    case Committing(erased) => erased ==> s.log.blocks == [] && s.ended == {}
    case Syncing(target, need) =>
      && need <= s.ended + s.durable
      && target <= s.log.ncommit + 1
      && (s.log.ncommit >= target ==> need <= s.durable)
      && (s.log.ncommit < target && !MustWait(s.log) ==> need <= s.durable)
    case Synced(need) => need <= s.durable
    case Outside => true
  }

  ghost predicate Inv(s: System) {
    && s.log.outstanding == Sum(Active(), s.threads)
    && (if s.log.committing then 1 else 0) == Sum(Committers(), s.threads)
    && (s.log.committing ==> s.log.outstanding == 0)
    && |s.log.blocks| + Sum(Unused(), s.threads) <= LOGBLOCKS
    && Distinct(s.log.blocks) && (forall b: nat :: PinInv(s.log, b))
    && (!MustWait(s.log) ==> s.ended == {} && s.log.blocks == [])
    && forall t :: 0 <= t < |s.threads| ==> ThreadInv(s, s.threads[t])
  }

  ghost predicate Init(s: System) {
    && s.log == Shared(0, false, 0, [], map[])
    && s.ended == {} == s.durable
    && forall t :: 0 <= t < |s.threads| ==> s.threads[t] == Outside
  }

  lemma {:induction false} SumZero(f: Thread -> nat, ts: seq<Thread>)
    requires f(Outside) == 0 && forall t :: 0 <= t < |ts| ==> ts[t] == Outside
    ensures Sum(f, ts) == 0
  {
    if ts != [] { SumZero(f, ts[1..]); }
  }

  lemma {:induction false} UnusedBound(ts: seq<Thread>)
    ensures Sum(Unused(), ts) <= MAXOPBLOCKS * Sum(Active(), ts)
  {
    if ts != [] { UnusedBound(ts[1..]); }
  }

  /** Facts about one thread's contribution, before and after it changes. */
  lemma Shares(s: System, t: nat, x: Thread)
    requires t < |s.threads|
    ensures Sum(Active(), s.threads[t := x]) == Sum(Active(), s.threads) - Active()(s.threads[t]) + Active()(x)
    ensures Sum(Committers(), s.threads[t := x]) == Sum(Committers(), s.threads) - Committers()(s.threads[t]) + Committers()(x)
    ensures Sum(Unused(), s.threads[t := x]) == Sum(Unused(), s.threads) - Unused()(s.threads[t]) + Unused()(x)
    ensures Active()(s.threads[t]) <= Sum(Active(), s.threads)
    ensures Committers()(s.threads[t]) <= Sum(Committers(), s.threads)
    ensures Unused()(s.threads[t]) <= Sum(Unused(), s.threads)
  {
    SumUpdate(Active(), s.threads, t, x);
    SumUpdate(Committers(), s.threads, t, x);
    SumUpdate(Unused(), s.threads, t, x);
  }

  /** No panic of `end_op` or `log_write` is reachable while budgets are kept. */
  lemma NoPanic(s: System, t: nat, a: Action)
    requires Inv(s) && Enabled(s, t, a)
    requires a.Record? ==> s.threads[t].added < MAXOPBLOCKS
    ensures !Panics(s, t, a)
  {
    Shares(s, t, Outside);
  }

  lemma OthersInv(s: System, t: nat, a: Action, u: nat)
    requires Inv(s) && Enabled(s, t, a) && u < |s.threads| && u != t
    ensures ThreadInv(Step(s, t, a), s.threads[u])
  {
    if s.threads[u].Committing? && s.threads[t].Committing? {
      TwoCommitters(s.threads, t, u);
    }
    Shares(s, t, Outside);
    Shares(s, u, Outside);
  }

  lemma StepInv(s: System, t: nat, a: Action)
    requires Inv(s) && Enabled(s, t, a)
    ensures Inv(Step(s, t, a))
  {
    var s' := Step(s, t, a);
    Shares(s, t, s'.threads[t]);
    UnusedBound(s.threads);
    forall b: nat ensures PinInv(s'.log, b) {
      assert PinInv(s.log, b);
      if a.Erase? { UnpinAllOf(s.log.pins, s.log.blocks, b); }
    }
    forall u | 0 <= u < |s'.threads| && u != t ensures ThreadInv(s', s.threads[u]) { OthersInv(s, t, a, u); }
  }

  lemma {:induction false} TwoCommitters(ts: seq<Thread>, t: nat, u: nat)
    requires t < |ts| && u < |ts| && t != u && ts[t].Committing? && ts[u].Committing?
    ensures Sum(Committers(), ts) >= 2
  {
    SumUpdate(Committers(), ts, t, Outside);
    SumUpdate(Committers(), ts[t := Outside], u, Outside);
  }

  // ---------------------------------------------------------------- every run

  datatype Move = Move(thread: nat, action: Action)

  ghost predicate LegalRun(s: System, ms: seq<Move>)
    decreases |ms|
  {
    ms == [] || (Enabled(s, ms[0].thread, ms[0].action) && LegalRun(Step(s, ms[0].thread, ms[0].action), ms[1..]))
  }

  function Run(s: System, ms: seq<Move>): System
    requires LegalRun(s, ms)
    decreases |ms|
  {
    if ms == [] then s else Run(Step(s, ms[0].thread, ms[0].action), ms[1..])
  }

  lemma {:induction false} RunInv(s: System, ms: seq<Move>)
    requires Inv(s) && LegalRun(s, ms)
    ensures Inv(Run(s, ms))
    decreases |ms|
  {
    if ms != [] {
      StepInv(s, ms[0].thread, ms[0].action);
      RunInv(Step(s, ms[0].thread, ms[0].action), ms[1..]);
    }
  }

  /**
   Every interleaving from boot: a commit never overlaps an operation; logged
   blocks are distinct with one pin each; an operation with budget left finds
   room in the log; and a returned `sys_sync` saw every operation that had
   ended when it was called become durable.
   */
  lemma Admission(s: System, ms: seq<Move>)
    requires Init(s) && LegalRun(s, ms)
    ensures var r := Run(s, ms);
      && (r.log.committing ==> r.log.outstanding == 0 && forall t :: 0 <= t < |r.threads| ==> !r.threads[t].InOp?)
      && Distinct(r.log.blocks) && (forall b: nat :: PinInv(r.log, b))
      && (forall t :: 0 <= t < |r.threads| && r.threads[t].InOp? && r.threads[t].added < MAXOPBLOCKS ==>
            |r.log.blocks| < LOGBLOCKS && r.log.outstanding >= 1 && !r.log.committing)
      && (forall t :: 0 <= t < |r.threads| && r.threads[t].Synced? ==> r.threads[t].need <= r.durable)
  {
    InitInv(s);
    RunInv(s, ms);
    var r := Run(s, ms);
    forall t | 0 <= t < |r.threads|
      ensures r.threads[t].InOp? ==> r.log.outstanding >= 1 && !r.log.committing
      ensures r.threads[t].InOp? && r.threads[t].added < MAXOPBLOCKS ==> |r.log.blocks| < LOGBLOCKS
    {
      Shares(r, t, Outside);
    }
  }

  // ------------------------------------------------------ one move after another

  lemma {:induction false} RunPrefix(s: System, ms: seq<Move>, k: nat)
    requires LegalRun(s, ms) && k <= |ms|
    ensures LegalRun(s, ms[..k])
    ensures k < |ms| ==> Enabled(Run(s, ms[..k]), ms[k].thread, ms[k].action)
    ensures k < |ms| ==> LegalRun(s, ms[..k + 1]) && Run(s, ms[..k + 1]) == Step(Run(s, ms[..k]), ms[k].thread, ms[k].action)
    decreases |ms|
  {
    if k > 0 {
      RunPrefix(Step(s, ms[0].thread, ms[0].action), ms[1..], k - 1);
      assert ms[..k][1..] == ms[1..][..k - 1];
      if k < |ms| { assert ms[..k + 1][1..] == ms[1..][..k]; }
    } else if ms != [] {
      assert ms[..1][1..] == [];
    }
  }

  /** The state after the first `k` moves. */
  function After(s: System, ms: seq<Move>, k: nat): System
    requires LegalRun(s, ms) && k <= |ms|
  {
    RunPrefix(s, ms, k);
    Run(s, ms[..k])
  }

  ghost predicate NoErase(ms: seq<Move>, i: nat, k: nat) {
    forall e :: i <= e < k && e < |ms| ==> ms[e].action != Erase
  }

  // ------------------------------------------------------------ what is logged

  /** `log_write` adds its block and nothing else. */
  lemma RecordLogs(l: Shared, b: nat, x: nat)
    ensures x in Recorded(l, b).blocks <==> x in l.blocks || x == b
  {
  }

  lemma {:induction false} StaysLogged(s: System, ms: seq<Move>, i: nat, k: nat, b: nat)
    requires LegalRun(s, ms) && i <= k <= |ms| && NoErase(ms, i, k) && b in After(s, ms, i).log.blocks
    ensures b in After(s, ms, k).log.blocks
    decreases k - i
  {
    if i < k {
      StaysLogged(s, ms, i, k - 1, b);
      RunPrefix(s, ms, k - 1);
      var r := After(s, ms, k - 1);
      if ms[k - 1].action.Record? { RecordLogs(r.log, ms[k - 1].action.b, b); }
    }
  }

  /** Every block passed to `log_write` is in the log until the commit that writes it has returned. */
  lemma LoggedTillCommitted(s: System, ms: seq<Move>, i: nat, k: nat, b: nat)
    requires LegalRun(s, ms) && i < k <= |ms| && ms[i].action == Record(b) && NoErase(ms, i, k)
    ensures b in After(s, ms, k).log.blocks
  {
    RunPrefix(s, ms, i);
    RecordLogs(After(s, ms, i).log, b, b);
    StaysLogged(s, ms, i + 1, k, b);
  }

  // ------------------------------------------------------------------ progress

  lemma {:induction false} SomeThread(f: Thread -> nat, ts: seq<Thread>)
    requires forall t :: 0 <= t < |ts| ==> f(ts[t]) == 0
    ensures Sum(f, ts) == 0
  {
    if ts != [] { SomeThread(f, ts[1..]); }
  }

  /** While nobody is in an operation or a commit, anybody may begin one, and `sys_sync` returns at once. */
  lemma IdleAdmits(s: System, t: nat)
    requires Inv(s) && t < |s.threads| && s.threads[t] == Outside
    requires forall u :: 0 <= u < |s.threads| ==> !s.threads[u].InOp? && !s.threads[u].Committing?
    ensures Enabled(s, t, Begin) && Step(s, t, Sync).threads[t].Synced?
  {
    SomeThread(Active(), s.threads);
    SomeThread(Committers(), s.threads);
  }

  /** With an empty log and no commit, up to LOGBLOCKS / MAXOPBLOCKS operations run at once. */
  lemma AdmitsThree(l: Shared)
    requires !l.committing && l.blocks == [] && l.outstanding >= 0
    ensures Admits(l) <==> l.outstanding < 3
  {
  }

  /** The end of a commit lets a waiting operation in and every waiting `sys_sync` out. */
  lemma FinishWakes(s: System, t: nat, u: nat)
    requires Inv(s) && Enabled(s, t, Finish) && u < |s.threads| && u != t
    ensures var s' := Step(s, t, Finish);
      (s.threads[u].Outside? ==> Enabled(s', u, Begin)) && (s.threads[u].Syncing? ==> Enabled(s', u, Return))
  {
    Shares(s, t, Outside);
    assert ThreadInv(s, s.threads[t]) && ThreadInv(s, s.threads[u]);
  }

  // ----------------------------------------------------- what sys_sync waited for

  /** Operations have numbers of their own; those ended or durable are no longer running. */
  ghost predicate OpsInv(s: System) {
    && (forall o :: o in s.ended || o in s.durable ==> o < s.nextOp)
    && (forall t :: 0 <= t < |s.threads| && s.threads[t].InOp? ==>
          s.threads[t].op < s.nextOp && s.threads[t].op !in s.ended && s.threads[t].op !in s.durable)
    && (forall t, u :: 0 <= t < u < |s.threads| && s.threads[t].InOp? && s.threads[u].InOp? ==> s.threads[t].op != s.threads[u].op)
  }

  lemma OpsStep(s: System, t: nat, a: Action)
    requires OpsInv(s) && Enabled(s, t, a)
    ensures OpsInv(Step(s, t, a))
  {
  }

  lemma {:induction false} OpsAfter(s: System, ms: seq<Move>, k: nat)
    requires Inv(s) && OpsInv(s) && LegalRun(s, ms) && k <= |ms|
    ensures Inv(After(s, ms, k)) && OpsInv(After(s, ms, k))
  {
    if k > 0 {
      OpsAfter(s, ms, k - 1);
      RunPrefix(s, ms, k - 1);
      StepInv(After(s, ms, k - 1), ms[k - 1].thread, ms[k - 1].action);
      OpsStep(After(s, ms, k - 1), ms[k - 1].thread, ms[k - 1].action);
    } else {
      assert ms[..0] == [];
    }
  }

  /** Without a commit nothing becomes durable, and what has ended stays so. */
  lemma {:induction false} DurableStays(s: System, ms: seq<Move>, i: nat, k: nat)
    requires LegalRun(s, ms) && i <= k <= |ms| && NoErase(ms, i, k)
    ensures After(s, ms, k).durable == After(s, ms, i).durable && After(s, ms, i).ended <= After(s, ms, k).ended
    decreases k - i
  {
    if i < k {
      DurableStays(s, ms, i, k - 1);
      RunPrefix(s, ms, k - 1);
    }
  }

  /** From its call of `sys_sync` at move `j` on, thread `t` waits and returns, and does nothing else. */
  ghost predicate InSync(ms: seq<Move>, t: nat, j: nat, k: nat) {
    && j < k <= |ms| && ms[j] == Move(t, Sync)
    && forall e :: j < e < k && ms[e].thread == t ==> ms[e].action == Return
  }

  lemma {:induction false} NeedStays(s: System, ms: seq<Move>, t: nat, j: nat, k: nat)
    requires LegalRun(s, ms) && InSync(ms, t, j, k)
    ensures var x := After(s, ms, k).threads;
      && t < |x| && (x[t].Syncing? || x[t].Synced?)
      && x[t].need == After(s, ms, j).ended + After(s, ms, j).durable
    decreases k - j
  {
    RunPrefix(s, ms, k - 1);
    if j + 1 < k { NeedStays(s, ms, t, j, k - 1); }
  }

  /**
   Every run from boot: once a `sys_sync` has returned, each operation that ended
   before it was called has been followed by a commit that has returned.
   */
  lemma SyncWaits(s: System, ms: seq<Move>, t: nat, i: nat, j: nat, k: nat)
    requires Init(s) && LegalRun(s, ms) && InSync(ms, t, j, k) && i < j && ms[i].action == End
    requires t < |After(s, ms, k).threads| && After(s, ms, k).threads[t].Synced?
    ensures exists e :: i < e < k && ms[e].action == Erase
  {
    InitInv(s);
    OpsAfter(s, ms, i);
    OpsAfter(s, ms, k);
    RunPrefix(s, ms, i);
    NeedStays(s, ms, t, j, k);
    assert ThreadInv(After(s, ms, k), After(s, ms, k).threads[t]);
    var o := After(s, ms, i).threads[ms[i].thread].op;
    assert o in After(s, ms, i + 1).ended && o !in After(s, ms, i + 1).durable;
    if NoErase(ms, i + 1, k) {
      DurableStays(s, ms, i + 1, j);
      DurableStays(s, ms, i + 1, k);
    }
  }

  lemma InitInv(s: System)
    requires Init(s)
    ensures Inv(s) && OpsInv(s)
  {
    SumZero(Active(), s.threads);
    SumZero(Committers(), s.threads);
    SumZero(Unused(), s.threads);
  }
}
