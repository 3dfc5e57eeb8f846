/**
 Processes' memory (proc.c, sysproc.c): `allocproc`, `freeproc`, `growproc`,
 `sbrk` and `fork` over the page tables.  A slot of the process table owns the
 address space with its number.
 */
module ProcMemory {

  import opened Common
  import opened PageTable
  import opened UserMemory
  import opened Vm

  const TOP: nat := TRAPFRAME * PGSIZE
  const TEXT: Perm := Perm(true, false, true, false)
  const KERNEL: Perm := Perm(true, true, false, false)

  const A0: nat := 112   // offset of register a0 in the trapframe

  datatype Proc = Proc(used: bool, pid: nat, pagetable: int, trapframe: int, sz: nat)

  const VACANT: Proc := Proc(false, 0, -1, -1, 0)

  function Slot(procs: seq<Proc>, p: nat): Proc { if p < |procs| then procs[p] else VACANT }

  // --------------------------------------------------------------- invariant

  /** The trapframe is the one page in the kernel's hand for `p`. */
  ghost predicate OnlyHand(s: State, p: nat, tf: int) {
    forall q :: 0 <= q < |s.own| ==> (s.own[q] == Hand(p) <==> q == tf)
  }

  ghost predicate SpaceOf(s: State, pr: Proc, p: nat) {
    && p in s.roots && s.roots[p] == pr.pagetable && SpaceOk(s, p, Up(pr.sz))
    && Tr(s, p, TRAMPOLINE) == Pte(true, TRAMPOLINE_PPN, TEXT) && Tr(s, p, TRAPFRAME) == Pte(true, pr.trapframe, KERNEL)
  }

  ghost predicate ProcOk(s: State, pr: Proc, p: nat) {
    && OnlyHand(s, p, pr.trapframe)
    && if pr.used then 0 <= pr.trapframe < |s.own| && SpaceOf(s, pr, p) else pr == VACANT && p !in s.roots
  }

  ghost predicate Kept(s: State, procs: seq<Proc>) {
    && Inv(s) && NoDoomed(s)
    && forall p {:trigger ProcOk(s, Slot(procs, p), p)} :: ProcOk(s, Slot(procs, p), p)
  }

  /** Work on space `p` keeps every other process's memory. */
  lemma ProcKept(s: State, s': State, pr: Proc, p: nat, p': nat)
    requires Inv(s) && Only(s, s', p) && p' != p && ProcOk(s, pr, p')
    ensures ProcOk(s', pr, p')
  {
    forall q | 0 <= q < |s.own| ensures s'.own[q] == Hand(p') <==> q == pr.trapframe { assert OnlyAt(s, s', p, q); }
    assert p' in s.roots <==> p' in s.roots - {p};
    assert p' in s'.roots <==> p' in s'.roots - {p};
    if pr.used {
      assert (s.roots - {p})[p'] == (s'.roots - {p})[p'];
      forall x: nat ensures Tr(s', p', x) == Tr(s, p', x) && (Owned(s, p', x) ==> Owned(s', p', x)) { OnlyView(s, s', p, p', x); }
    }
  }

  lemma AllKept(s: State, s': State, procs: seq<Proc>, procs': seq<Proc>, p: nat)
    requires Kept(s, procs) && Only(s, s', p) && Inv(s') && NoDoomed(s') && p < |procs| && procs' == procs[p := Slot(procs', p)]
    requires ProcOk(s', Slot(procs', p), p)
    ensures Kept(s', procs')
  {
    forall p': nat ensures ProcOk(s', Slot(procs', p'), p') {
      assert ProcOk(s, Slot(procs, p'), p');
      if p' != p { ProcKept(s, s', Slot(procs, p'), p, p'); }
    }
  }

  lemma GainedProc(s: State, s': State, p: nat, lo: nat, hi: nat, tf: int)
    requires NoDoomed(s) && OnlyHand(s, p, tf) && Gained(s, s', p, lo, hi)
    ensures NoDoomed(s') && OnlyHand(s', p, tf) && Only(s, s', p)
  {
    GainedOnly(s, s', p, lo, hi);
    forall q | 0 <= q < |s.own| ensures !s'.own[q].Doomed? && (s'.own[q] == Hand(p) <==> q == tf) { assert GainedAt(s, s', p, lo, hi, q); }
  }

  lemma GoneProc(s: State, s': State, p: nat, v: nat, n: nat, give: bool, tf: int)
    requires NoDoomed(s) && OnlyHand(s, p, tf) && Gone(s, s', p, v, n, give)
    ensures NoDoomed(s') && OnlyHand(s', p, tf) && Only(s, s', p)
  {
    forall q | 0 <= q < |s.own| ensures !s'.own[q].Doomed? && (s'.own[q] == Hand(p) <==> q == tf) && OnlyAt(s, s', p, q) {
      assert GoneAt(s, s', p, v, n, give, q);
    }
  }

  /** New pages at the end of the memory. */
  lemma GrowSpace(s: State, s': State, p: nat, n: nat, n': nat)
    requires SpaceOk(s, p, n) && Gained(s, s', p, n, n') && n <= n' <= TRAPFRAME
    ensures SpaceOk(s', p, n') && forall x: nat | x < n :: ViewOf(s', p, x) == ViewOf(s, p, x)
    ensures forall x: nat | x >= TRAPFRAME && Tr(s, p, x).v :: Tr(s', p, x) == Tr(s, p, x)
  {
    forall x: nat ensures Tr(s', p, x).v ==> if x < n' then Owned(s', p, x) else AboveUser(x) && !Tr(s', p, x).perm.u {
      assert Tr(s, p, x).v ==> if x < n then Owned(s, p, x) else AboveUser(x) && !Tr(s, p, x).perm.u;
      assert if n <= x < n' then Owned(s', p, x) else SameEntry(Tr(s, p, x), Tr(s', p, x));
      if x < n { GainedView(s, s', p, n, n', x); }
    }
    forall x: nat | x < n ensures ViewOf(s', p, x) == ViewOf(s, p, x) { GainedView(s, s', p, n, n', x); }
    forall x: nat | x >= TRAPFRAME && Tr(s, p, x).v ensures Tr(s', p, x) == Tr(s, p, x) {
      assert if n <= x < n' then Owned(s', p, x) else SameEntry(Tr(s, p, x), Tr(s', p, x));
    }
  }

  /** The pages at the end of the memory given back. */
  lemma ShrinkSpace(s: State, s': State, p: nat, n: nat, n': nat)
    requires SpaceOk(s, p, n) && n' <= n && Gone(s, s', p, n', n - n', true)
    ensures SpaceOk(s', p, n') && forall x: nat | x < n' :: ViewOf(s', p, x) == ViewOf(s, p, x)
    ensures forall x: nat | x >= TRAPFRAME :: Tr(s', p, x) == Tr(s, p, x)
  {
    forall x: nat ensures
      && (Tr(s', p, x).v ==> if x < n' then Owned(s', p, x) else AboveUser(x) && !Tr(s', p, x).perm.u)
      && (x < n' ==> ViewOf(s', p, x) == ViewOf(s, p, x)) && (x >= TRAPFRAME ==> Tr(s', p, x) == Tr(s, p, x))
    {
      assert Tr(s, p, x).v ==> if x < n then Owned(s, p, x) else AboveUser(x) && !Tr(s, p, x).perm.u;
      assert if n' <= x < n' + (n - n') then !Tr(s', p, x).v else Tr(s', p, x) == Tr(s, p, x);
      if x < n' && Tr(s, p, x).v { assert GoneAt(s, s', p, n', n - n', true, Tr(s, p, x).ppn); }
    }
  }

  // -------------------------------------------------------------- restoration

  /** The same pages are free, and every other page is held and filled as before. */
  ghost predicate Restored(s: State, s': State) {
    && |s.own| == |s.pages| == |s'.own| == |s'.pages|
    && forall q {:trigger s'.own[q]} :: 0 <= q < |s.own| ==>
         if s.own[q].Free? then s'.own[q].Free? else s'.own[q] == s.own[q] && s'.pages[q] == s.pages[q]
  }

  /** Once a space is gone, exactly what was taken for it is free again. */
  lemma RestoredBy(s: State, s': State, p: nat)
    requires Inv(s) && Inv(s') && NoDoomed(s) && NoDoomed(s') && Only(s, s', p)
    requires p !in s.roots && p !in s'.roots && OnlyHand(s, p, -1) && OnlyHand(s', p, -1)
    ensures Restored(s, s')
  {
    forall q: nat | q < |s.own| ensures if s.own[q].Free? then s'.own[q].Free? else s'.own[q] == s.own[q] && s'.pages[q] == s.pages[q] {
      assert OnlyAt(s, s', p, q);
      if Of(s.own[q], p) { Extinct(s, p, q); }
      if Of(s'.own[q], p) { Extinct(s', p, q); }
    }
  }

  // ----------------------------------------------------- building and freeing

  /** A space with its trampoline and trapframe pages mapped, or without them. */
  lemma BorrowProc(s: State, s': State, p: nat, v: nat, n: nat, ppn: int, perm: Perm, tf: int)
    requires NoDoomed(s) && OnlyHand(s, p, tf) && Mapped(s, s', p, v, n, ppn, perm, false)
    ensures NoDoomed(s') && OnlyHand(s', p, tf) && Only(s, s', p)
  {
    forall q | 0 <= q < |s.own| ensures !s'.own[q].Doomed? && (s'.own[q] == Hand(p) <==> q == tf) && OnlyAt(s, s', p, q) {
      assert MappedAt(s, s', p, v, n, ppn, false, q);
    }
  }

  lemma StartedProc(s: State, s': State, p: nat, tf: int)
    requires NoDoomed(s) && OnlyHand(s, p, tf) && Started(s, s', p)
    ensures NoDoomed(s') && OnlyHand(s', p, tf)
  {
    forall q | 0 <= q < |s.own| ensures !s'.own[q].Doomed? && (s'.own[q] == Hand(p) <==> q == tf) { assert StartedAt(s, s', p, q); }
  }

  lemma EndedProc(s: State, s': State, p: nat, tf: int)
    requires OnlyHand(s, p, tf) && SpaceGone(s, s', p)
    ensures OnlyHand(s', p, tf)
  {
    forall q | 0 <= q < |s.own| ensures s'.own[q] == Hand(p) <==> q == tf {
      assert SpaceGoneAt(s, s', p, q) && OnlyAt(s, s', p, q);
    }
  }

  lemma TakenProc(s: State, p: nat)
    requires Inv(s) && NoDoomed(s) && s.free != [] && s.free[|s.free| - 1] < |s.pages| && OnlyHand(s, p, -1)
    ensures NoDoomed(Taken(s, p)) && OnlyHand(Taken(s, p), p, s.free[|s.free| - 1]) && Only(s, Taken(s, p), p)
  {
    TakenKeeps(s, p);
    var s' := Taken(s, p);
    forall q: nat | q < |s.own| ensures OnlyAt(s, s', p, q) { }
  }

  lemma FreedProc(s: State, p: nat, tf: nat)
    requires Inv(s) && NoDoomed(s) && tf < |s.own| && OnlyHand(s, p, tf)
    ensures NoDoomed(Freed(s, tf)) && OnlyHand(Freed(s, tf), p, -1) && Only(s, Freed(s, tf), p)
    ensures forall x: nat :: Tr(Freed(s, tf), p, x) == Tr(s, p, x) && (Owned(s, p, x) ==> Owned(Freed(s, tf), p, x))
  {
    FreedKeeps(s, tf);
    var s' := Freed(s, tf);
    forall q: nat | q < |s.own| ensures OnlyAt(s, s', p, q) { }
    forall x: nat ensures Tr(s', p, x) == Tr(s, p, x) { TrKept(s, s', p, x); }
  }

  class Kernel {
    const mem: Memory
    var procs: seq<Proc>
    var nextpid: nat

    ghost predicate KInv()
      reads this, mem
    {
      Kept(mem.S(), procs)
    }

    constructor (pages: nat, nproc: nat)
      ensures fresh(mem) && KInv() && |procs| == nproc && forall p :: 0 <= p < nproc ==> procs[p] == VACANT
    {
      mem := new Memory(pages);
      procs := seq(nproc, p => VACANT);
      nextpid := 1;
    }

    /** `proc_pagetable`: a root with the trampoline and the trapframe page, or -1 and nothing. */
    method ProcPagetable(p: nat, tf: nat) returns (pt: int)
      requires Inv(mem.S()) && NoDoomed(mem.S()) && p !in mem.roots && tf < |mem.own| && OnlyHand(mem.S(), p, tf)
      modifies mem
      ensures Inv(mem.S()) && NoDoomed(mem.S()) && Only(old(mem.S()), mem.S(), p) && OnlyHand(mem.S(), p, tf)
      ensures pt >= 0 ==> SpaceOf(mem.S(), Proc(true, 0, pt, tf, 0), p)
      ensures pt < 0 ==> pt == -1 && p !in mem.roots && |old(mem.free)| < 5
      ensures pt >= 0 ==> |old(mem.free)| <= |mem.free| + 5
    {
      ghost var s := mem.S();
      OnlySame(s, p);
      pt := mem.Uvmcreate(p);
      if pt < 0 { return; }
      ghost var s1 := mem.S();
      StartedProc(s, s1, p, tf);
      var ok, panic, done := mem.Mappages(p, pt, TRAMPOLINE, 1, TRAMPOLINE_PPN, TEXT, false);
      ghost var s2 := mem.S();
      BorrowProc(s1, s2, p, TRAMPOLINE, done, TRAMPOLINE_PPN, TEXT, tf);
      OnlyTrans(s, s1, s2, p);
      if !ok {
        mem.Uvmfree(p, pt, 0);
        EndedProc(s2, mem.S(), p, tf);
        OnlyTrans(s, s2, mem.S(), p);
        return -1;
      }
      ok, panic, done := mem.Mappages(p, pt, TRAPFRAME, 1, tf, KERNEL, false);
      ghost var s3 := mem.S();
      BorrowProc(s2, s3, p, TRAPFRAME, done, tf, KERNEL, tf);
      OnlyTrans(s, s2, s3, p);
      if !ok {
        NotFrame(s3, p, TRAMPOLINE);
        mem.Uvmunmap(p, pt, TRAMPOLINE, 1, false);
        ghost var s4 := mem.S();
        GoneProc(s3, s4, p, TRAMPOLINE, 1, false, tf);
        OnlyTrans(s, s3, s4, p);
        mem.Uvmfree(p, pt, 0);
        EndedProc(s4, mem.S(), p, tf);
        OnlyTrans(s, s4, mem.S(), p);
        return -1;
      }
    }

    /** `proc_freepagetable`; the trapframe page is no longer in hand. */
    method ProcFreePagetable(p: nat, pt: nat, sz: nat)
      requires Inv(mem.S()) && NoDoomed(mem.S()) && OnlyHand(mem.S(), p, -1)
      requires p in mem.roots && mem.roots[p] == pt && SpaceOk(mem.S(), p, Up(sz))
      requires NoFrame(mem.S(), p, TRAMPOLINE) && NoFrame(mem.S(), p, TRAPFRAME)
      modifies mem
      ensures Inv(mem.S()) && NoDoomed(mem.S()) && Only(old(mem.S()), mem.S(), p) && OnlyHand(mem.S(), p, -1) && p !in mem.roots
    {
      ghost var s := mem.S();
      mem.Uvmunmap(p, pt, TRAMPOLINE, 1, false);
      ghost var s1 := mem.S();
      GoneProc(s, s1, p, TRAMPOLINE, 1, false, -1);
      GoneKeeps(s, s1, p, TRAMPOLINE);
      mem.Uvmunmap(p, pt, TRAPFRAME, 1, false);
      ghost var s2 := mem.S();
      GoneProc(s1, s2, p, TRAPFRAME, 1, false, -1);
      GoneKeeps(s1, s2, p, TRAPFRAME);
      OnlyTrans(s, s1, s2, p);
      mem.Uvmfree(p, pt, sz);
      EndedProc(s2, mem.S(), p, -1);
      OnlyTrans(s, s2, mem.S(), p);
    }

    /** `freeproc`, also of a process that is only partly built. */
    method Freeproc(p: nat)
      requires Inv(mem.S()) && NoDoomed(mem.S()) && p < |procs| && -1 <= procs[p].trapframe < |mem.own|
      requires OnlyHand(mem.S(), p, procs[p].trapframe)
      requires if procs[p].pagetable >= 0 then SpaceOf(mem.S(), procs[p], p) && procs[p].trapframe >= 0 else p !in mem.roots
      modifies mem, this`procs
      ensures Inv(mem.S()) && NoDoomed(mem.S()) && Only(old(mem.S()), mem.S(), p) && OnlyHand(mem.S(), p, -1) && p !in mem.roots
      ensures procs == old(procs)[p := VACANT]
      ensures old(KInv() && procs[p].used) ==> KInv()
    {
      ghost var s, pr := mem.S(), procs[p];
      OnlySame(s, p);
      if procs[p].trapframe >= 0 {
        FreedProc(s, p, procs[p].trapframe);
        var panic := mem.Kfree(procs[p].trapframe);
      }
      ghost var s1 := mem.S();
      if procs[p].pagetable >= 0 {
        assert SpaceOk(s1, p, Up(pr.sz));
        NotFrame(s1, p, TRAMPOLINE);
        NotFrame(s1, p, TRAPFRAME);
        ProcFreePagetable(p, procs[p].pagetable, procs[p].sz);
        OnlyTrans(s, s1, mem.S(), p);
      }
      procs := procs[p := VACANT];
      if old(KInv() && procs[p].used) { AllKept(s, mem.S(), old(procs), procs, p); }
    }

    /** `allocproc`: a slot with a trapframe and an empty space, or -1 with every page given back. */
    method Allocproc() returns (np: int)
      requires KInv()
      modifies mem, this
      ensures KInv() && nextpid >= old(nextpid)
      ensures np < 0 ==> np == -1 && procs == old(procs) && Restored(old(mem.S()), mem.S())
      ensures np >= 0 ==> np < |procs| == |old(procs)| && old(procs)[np] == VACANT && procs == old(procs)[np := procs[np]]
      ensures np < 0 ==> (forall i :: 0 <= i < |procs| ==> procs[i].used) || |old(mem.free)| < 6
      ensures np >= 0 ==> (forall i :: 0 <= i < np ==> procs[i].used) && |old(mem.free)| <= |mem.free| + 6 && nextpid == old(nextpid) + 1
      ensures np >= 0 ==> procs[np].used && procs[np].sz == 0 && procs[np].pid == old(nextpid) && Only(old(mem.S()), mem.S(), np)
    {
      ghost var s, were := mem.S(), procs;
      np := 0;
      while np < |procs| && procs[np].used
        invariant 0 <= np <= |procs| && forall i :: 0 <= i < np ==> procs[i].used
      {
        np := np + 1;
      }
      assert Restored(s, s);
      if np == |procs| { return -1; }
      var p: nat := np;
      assert ProcOk(s, Slot(were, p), p);
      procs := procs[p := VACANT.(used := true, pid := nextpid)];
      nextpid := nextpid + 1;
      OnlySame(s, p);
      var tf := mem.Kalloc(p);
      if tf >= 0 {
        TakenProc(s, p);
        procs := procs[p := procs[p].(trapframe := tf)];
        ghost var s1 := mem.S();
        var pt := ProcPagetable(p, tf);
        OnlyTrans(s, s1, mem.S(), p);
        if pt >= 0 {
          procs := procs[p := procs[p].(pagetable := pt)];
          AllKept(s, mem.S(), were, procs, p);
          return p;
        }
      }
      ghost var s2 := mem.S();
      Freeproc(p);
      OnlyTrans(s, s2, mem.S(), p);
      RestoredBy(s, mem.S(), p);
      assert procs == were;
      AllKept(s, mem.S(), were, procs, p);
      np := -1;
    }

    /** The part of `growproc` that grows. */
    method Grow(p: nat, n: nat) returns (ok: bool)
      requires KInv() && p < |procs| && procs[p].used && 0 < n < 0x8000_0000 && procs[p].sz + n <= TOP
      modifies mem, this`procs
      ensures KInv() && Only(old(mem.S()), mem.S(), p) && |procs| == |old(procs)|
      ensures procs == old(procs)[p := old(procs)[p].(sz := if ok then old(procs)[p].sz + n else old(procs)[p].sz)]
      ensures forall x: nat :: x < Up(procs[p].sz) ==> Seen(mem.S(), p, Up(procs[p].sz), x) == Resized(old(mem.S()), p, Up(old(procs)[p].sz), x)
      ensures !ok ==> |old(mem.free)| < 3 * (Up(old(procs)[p].sz + n) - Up(old(procs)[p].sz))
    {
      ghost var s, were := mem.S(), procs;
      assert ProcOk(s, Slot(were, p), p);
      var sz, pt := procs[p].sz, procs[p].pagetable;
      UpBounds(sz, n);
      var r := mem.Uvmalloc(p, pt, sz, sz + n, USER);
      ghost var hi := if r == 0 then Up(sz) else Up(sz + n);
      GainedProc(s, mem.S(), p, Up(sz), hi, procs[p].trapframe);
      GrowSpace(s, mem.S(), p, Up(sz), hi);
      ok := r != 0;
      if ok { procs := procs[p := procs[p].(sz := r)]; }
      AllKept(s, mem.S(), were, procs, p);
    }

    /** The part of `growproc` that shrinks; `newsz` wraps round when `n` is more than there is. */
    method Shrink(p: nat, n: int)
      requires KInv() && p < |procs| && procs[p].used && -0x8000_0000 <= n < 0
      modifies mem, this`procs
      ensures KInv() && Only(old(mem.S()), mem.S(), p) && |procs| == |old(procs)|
      ensures procs == old(procs)[p := old(procs)[p].(sz := NewSize(old(procs)[p].sz, n, true))]
      ensures forall x: nat :: x < Up(procs[p].sz) ==> Seen(mem.S(), p, Up(procs[p].sz), x) == Seen(old(mem.S()), p, Up(old(procs)[p].sz), x)
    {
      ghost var s, were := mem.S(), procs;
      assert ProcOk(s, Slot(were, p), p);
      OnlySame(s, p);
      var sz, pt := procs[p].sz, procs[p].pagetable;
      UpBounds(sz, n);
      var newsz := (sz + n) % 0x1_0000_0000_0000_0000;   // unsigned 64-bit
      var r := mem.Uvmdealloc(p, pt, sz, newsz);
      if newsz < sz {
        GoneProc(s, mem.S(), p, Up(newsz), Up(sz) - Up(newsz), true, procs[p].trapframe);
        ShrinkSpace(s, mem.S(), p, Up(sz), Up(newsz));
      }
      procs := procs[p := procs[p].(sz := r)];
      AllKept(s, mem.S(), were, procs, p);
    }

    /** `growproc`: eager growth by zeroed pages, or shrinking. */
    method Growproc(p: nat, n: int) returns (ok: bool)
      requires KInv() && p < |procs| && procs[p].used && -0x8000_0000 <= n < 0x8000_0000
      modifies mem, this`procs
      ensures KInv() && Only(old(mem.S()), mem.S(), p) && |procs| == |old(procs)|
      ensures procs == old(procs)[p := old(procs)[p].(sz := NewSize(old(procs)[p].sz, n, ok))]
      ensures ok && old(procs)[p].sz + n >= 0 ==> procs[p].sz == old(procs)[p].sz + n
      ensures !ok || old(procs)[p].sz + n < 0 ==> procs[p].sz == old(procs)[p].sz
      ensures forall x: nat :: x < Up(procs[p].sz) ==> Seen(mem.S(), p, Up(procs[p].sz), x) == Resized(old(mem.S()), p, Up(old(procs)[p].sz), x)
      ensures !ok ==> n > 0 && (old(procs)[p].sz + n > TOP || |old(mem.free)| < 3 * (Up(old(procs)[p].sz + n) - Up(old(procs)[p].sz)))
      ensures ok && n > 0 ==> old(procs)[p].sz + n <= TOP
    {
      OnlySame(mem.S(), p);
      if n > 0 {
        if procs[p].sz + n > TOP { return false; }
        ok := Grow(p, n);
      } else {
        assert ProcOk(mem.S(), Slot(procs, p), p);
        UpBounds(procs[p].sz, n);
        if n < 0 { Shrink(p, n); }
        ok := true;
      }
    }

    /** `sbrk`: returns the old size or -1.  Lazy growth only changes the size. */
    method Sbrk(p: nat, n: int, eager: bool) returns (r: int)
      requires KInv() && p < |procs| && procs[p].used && -0x8000_0000 <= n < 0x8000_0000
      modifies mem, this`procs
      ensures KInv() && Only(old(mem.S()), mem.S(), p) && |procs| == |old(procs)|
      ensures procs == old(procs)[p := old(procs)[p].(sz := NewSize(old(procs)[p].sz, n, r >= 0))]
      ensures r >= 0 && old(procs)[p].sz + n >= 0 ==> procs[p].sz == old(procs)[p].sz + n
      ensures r < 0 || old(procs)[p].sz + n < 0 ==> procs[p].sz == old(procs)[p].sz
      ensures r == old(procs)[p].sz || r == -1
      ensures forall x: nat :: x < Up(procs[p].sz) ==> Seen(mem.S(), p, Up(procs[p].sz), x) == Resized(old(mem.S()), p, Up(old(procs)[p].sz), x)
      ensures r < 0 ==> n > 0 && (old(procs)[p].sz + n > TOP || (eager && |old(mem.free)| < 3 * (Up(old(procs)[p].sz + n) - Up(old(procs)[p].sz))))
      ensures r >= 0 && n > 0 ==> old(procs)[p].sz + n <= TOP
      ensures r >= 0 ==> Does(Machine(old(mem.S()), old(procs)[p].sz), Machine(mem.S(), procs[p].sz), p, Resize(n))
    {
      var addr := procs[p].sz;
      if eager || n < 0 {
        var ok := Growproc(p, n);
        return if ok then addr else -1;
      }
      ghost var s, were := mem.S(), procs;
      assert ProcOk(s, Slot(were, p), p);
      OnlySame(s, p);
      UpBounds(addr, n);
      if addr + n > TOP { return -1; }   // UpBounds: the unsigned sum cannot wrap, so the test before this one never fails
      procs := procs[p := procs[p].(sz := addr + n)];
      LazySpace(s, p, Up(addr), Up(addr + n));
      AllKept(s, s, were, procs, p);
      r := addr;
    }

    /** `freeproc` of a process that was made since state `s`: everything is as it was then. */
    method GiveUp(np: nat, ghost s: State, ghost were: seq<Proc>)
      requires Kept(s, were) && np < |were| == |procs| && were[np] == VACANT && procs == were[np := procs[np]]
      requires Inv(mem.S()) && NoDoomed(mem.S()) && Only(s, mem.S(), np) && 0 <= procs[np].trapframe < |mem.own|
      requires OnlyHand(mem.S(), np, procs[np].trapframe) && procs[np].pagetable >= 0 && SpaceOf(mem.S(), procs[np], np)
      modifies mem, this`procs
      ensures KInv() && procs == were && Restored(s, mem.S())
    {
      ghost var s2 := mem.S();
      Freeproc(np);
      OnlyTrans(s, s2, mem.S(), np);
      assert ProcOk(s, Slot(were, np), np);
      RestoredBy(s, mem.S(), np);
      assert procs == were;
      AllKept(s, mem.S(), were, procs, np);
    }

    /** `kfork` up to the copy of the memory: the child's slot, or -1 with every page given back. */
    method ForkMemory(p: nat) returns (np: int)
      requires KInv() && p < |procs| && procs[p].used
      modifies mem, this
      ensures KInv() && |procs| == |old(procs)|
      ensures np < 0 ==> np == -1 && procs == old(procs) && Restored(old(mem.S()), mem.S())
      ensures np >= 0 ==> np < |procs| && np != p && old(procs)[np] == VACANT && Only(old(mem.S()), mem.S(), np)
      ensures np < 0 ==> (forall i :: 0 <= i < |procs| ==> procs[i].used) || |old(mem.free)| < 6 + 3 * Up(procs[p].sz)
      ensures np >= 0 ==> (forall i :: 0 <= i < np ==> procs[i].used) && procs[np].pid == old(nextpid) && nextpid == old(nextpid) + 1
      ensures np >= 0 ==> procs == old(procs)[np := procs[np]] && procs[np].used && procs[np].sz == procs[p].sz
      ensures np >= 0 ==> forall x: nat :: x < Up(procs[p].sz) ==>
        Seen(mem.S(), np, Up(procs[p].sz), x) == Seen(old(mem.S()), p, Up(procs[p].sz), x) == Seen(mem.S(), p, Up(procs[p].sz), x)
    {
      ghost var s, were := mem.S(), procs;
      assert ProcOk(s, Slot(were, p), p);
      np := Allocproc();
      if np < 0 { return; }
      ghost var s1, with := mem.S(), procs;
      assert ProcOk(s1, Slot(with, p), p) && ProcOk(s1, Slot(with, np), np);
      var ok := mem.Uvmcopy(p, procs[p].pagetable, np, procs[np].pagetable, procs[p].sz);
      ghost var s2, n := mem.S(), Up(procs[p].sz);
      GainedProc(s1, s2, np, 0, if ok then n else 0, procs[np].trapframe);
      GrowSpace(s1, s2, np, 0, if ok then n else 0);
      OnlyTrans(s, s1, s2, np);
      if !ok {
        GiveUp(np, s, were);
        return -1;
      }
      procs := procs[np := procs[np].(sz := procs[p].sz)];
      ForkSeen(s, s1, s2, p, np, n);
      AllKept(s, s2, were, procs, np);
    }

    /** `kfork`: the child sees the parent's memory and has its registers, but for the 0 that fork returns. */
    method Kfork(p: nat) returns (np: int)
      requires KInv() && p < |procs| && procs[p].used
      modifies mem, this
      ensures KInv() && |procs| == |old(procs)|
      ensures np < 0 ==> np == -1 && procs == old(procs) && Restored(old(mem.S()), mem.S())
      ensures np >= 0 ==> np < |procs| && np != p && old(procs)[np] == VACANT && Only(old(mem.S()), mem.S(), np)
      ensures np < 0 ==> (forall i :: 0 <= i < |procs| ==> procs[i].used) || |old(mem.free)| < 6 + 3 * Up(procs[p].sz)
      ensures np >= 0 ==> (forall i :: 0 <= i < np ==> procs[i].used) && procs[np].pid == old(nextpid) && nextpid == old(nextpid) + 1
      ensures np >= 0 ==> procs == old(procs)[np := procs[np]] && procs[np].used && procs[np].sz == procs[p].sz
      ensures np >= 0 ==> forall x: nat :: x < Up(procs[p].sz) ==>
        Seen(mem.S(), np, Up(procs[p].sz), x) == Seen(old(mem.S()), p, Up(procs[p].sz), x) == Seen(mem.S(), p, Up(procs[p].sz), x)
      ensures np >= 0 ==> var d := Data(old(mem.pages), procs[p].trapframe);
        |d| == PGSIZE && Data(mem.pages, procs[np].trapframe) == Spliced(d, A0, [0, 0, 0, 0, 0, 0, 0, 0])
    {
      ghost var s, were := mem.S(), procs;
      assert ProcOk(s, Slot(were, p), p) && PageOk(s, were[p].trapframe);
      np := ForkMemory(p);
      if np < 0 { return; }
      ghost var s1 := mem.S();
      assert ProcOk(s1, Slot(procs, np), np) && OnlyAt(s, s1, np, were[p].trapframe);
      var regs := Bytes(Spliced(mem.pages[procs[p].trapframe].data, A0, [0, 0, 0, 0, 0, 0, 0, 0]));
      RegistersKept(s1, procs, np, regs);
      RegistersSeen(s1, procs, np, regs, p);
      RegistersSeen(s1, procs, np, regs, np);
      mem.pages := mem.pages[procs[np].trapframe := regs];
      OnlyTrans(s, s1, mem.S(), np);
    }

    /** A page fault of process `p` at `va`: it sees no change, and neither does anybody else. */
    method Fault(p: nat, va: nat) returns (q: int)
      requires KInv() && p < |procs| && procs[p].used
      modifies mem
      ensures KInv() && OthersSee(old(mem.S()), mem.S(), procs, p)
      ensures Does(Machine(old(mem.S()), procs[p].sz), Machine(mem.S(), procs[p].sz), p, Touch)
      ensures q >= 0 ==> va < procs[p].sz && !Tr(old(mem.S()), p, va / PGSIZE).v && Tr(mem.S(), p, va / PGSIZE) == Pte(true, q, USER)
      ensures q < 0 ==> va >= procs[p].sz || Tr(old(mem.S()), p, va / PGSIZE).v || |old(mem.free)| < 3
    {
      ghost var s := mem.S();
      assert ProcOk(s, Slot(procs, p), p);
      q := mem.Vmfault(p, procs[p].pagetable, va, procs[p].sz);
      UserKept(s, mem.S(), procs, p);
    }

    /** `copyin` for process `p`. */
    method ReadUser(p: nat, va: nat, len: nat) returns (ok: bool, dst: seq<byte>)
      requires KInv() && p < |procs| && procs[p].used
      modifies mem
      ensures KInv() && OthersSee(old(mem.S()), mem.S(), procs, p)
      ensures Does(Machine(old(mem.S()), procs[p].sz), Machine(mem.S(), procs[p].sz), p, Touch)
      ensures ok ==> |dst| == len && Copied(old(mem.S()), p, Up(procs[p].sz), va, dst)
      ensures !ok ==> exists v: nat :: Stuck(old(mem.S()), p, Up(procs[p].sz), va, len, false, v)
    {
      ghost var s := mem.S();
      assert ProcOk(s, Slot(procs, p), p);
      ok, dst := mem.Copyin(p, procs[p].pagetable, va, len, procs[p].sz);
      UserKept(s, mem.S(), procs, p);
    }

    /** `copyout` for process `p`. */
    method WriteUser(p: nat, va: nat, src: seq<byte>) returns (ok: bool)
      requires KInv() && p < |procs| && procs[p].used
      modifies mem
      ensures KInv() && OthersSee(old(mem.S()), mem.S(), procs, p)
      ensures ok ==> Does(Machine(old(mem.S()), procs[p].sz), Machine(mem.S(), procs[p].sz), p, Put(va, src))
      ensures !ok ==> exists v: nat :: Stuck(old(mem.S()), p, Up(procs[p].sz), va, |src|, true, v)
    {
      ghost var s := mem.S();
      assert ProcOk(s, Slot(procs, p), p);
      ghost var k;
      ok, k := mem.Copyout(p, procs[p].pagetable, va, src, procs[p].sz);
      UserKept(s, mem.S(), procs, p);
    }
  }

  /** The same `sbrk(n)` on two machines that see the same memory, lazily on one and eagerly on the other. */
  method SbrkBothWays(lazy: Kernel, eager: Kernel, p: nat, n: int) returns (r: int, r': int)
    requires lazy != eager && lazy.mem != eager.mem && lazy.KInv() && eager.KInv() && -0x8000_0000 <= n < 0x8000_0000
    requires p < |lazy.procs| && p < |eager.procs| && lazy.procs[p].used && eager.procs[p].used
    requires lazy.procs[p].sz == eager.procs[p].sz && Alike(lazy.mem.S(), eager.mem.S(), p, Up(lazy.procs[p].sz))
    modifies lazy, lazy.mem, eager, eager.mem
    ensures lazy.KInv() && eager.KInv() && p < |lazy.procs| && p < |eager.procs|
    ensures r' >= 0 ==> r == r'
    ensures r >= 0 && r' >= 0 ==>
      lazy.procs[p].sz == eager.procs[p].sz && Alike(lazy.mem.S(), eager.mem.S(), p, Up(lazy.procs[p].sz))
    ensures r >= 0 && r' < 0 ==> n > 0 && |old(eager.mem.free)| < 3 * (Up(old(eager.procs)[p].sz + n) - Up(old(eager.procs)[p].sz))
  {
    ghost var m, k := Machine(lazy.mem.S(), lazy.procs[p].sz), Machine(eager.mem.S(), eager.procs[p].sz);
    r := lazy.Sbrk(p, n, false);
    r' := eager.Sbrk(p, n, true);
    if r >= 0 && r' >= 0 {
      AlikeStep(m, k, Machine(lazy.mem.S(), lazy.procs[p].sz), Machine(eager.mem.S(), eager.procs[p].sz), p, Resize(n));
    }
  }

  /** A process's memory depends on the tables and holders alone. */
  lemma ProcSame(s: State, s': State, pr: Proc, p: nat)
    requires Inv(s) && ProcOk(s, pr, p) && s'.own == s.own && SameTables(s, s')
    ensures ProcOk(s', pr, p)
  {
    forall x: nat ensures Tr(s', p, x) == Tr(s, p, x) { TrKept(s, s', p, x); }
  }

  /** Filling in a trapframe keeps everything else. */
  lemma RegistersKept(s: State, procs: seq<Proc>, np: nat, c: Contents)
    requires Kept(s, procs) && np < |procs| && procs[np].used && IsData(c)
    ensures 0 <= procs[np].trapframe < |s.pages|
    ensures var s' := s.(pages := s.pages[procs[np].trapframe := c]); Kept(s', procs) && Only(s, s', np)
  {
    assert ProcOk(s, Slot(procs, np), np);
    var tf := procs[np].trapframe;
    var s' := s.(pages := s.pages[tf := c]);
    StoredKeeps(s, tf, c);
    forall q: nat | q < |s.own| ensures OnlyAt(s, s', np, q) { }
    forall p': nat ensures ProcOk(s', Slot(procs, p'), p') {
      assert ProcOk(s, Slot(procs, p'), p');
      ProcSame(s, s', Slot(procs, p'), p');
    }
  }

  /** Filling in a trapframe changes no memory that a user sees. */
  lemma RegistersSeen(s: State, procs: seq<Proc>, np: nat, c: Contents, p: nat)
    requires Kept(s, procs) && np < |procs| && procs[np].used && IsData(c) && p < |procs| && procs[p].used
    requires 0 <= procs[np].trapframe < |s.pages|
    ensures var s' := s.(pages := s.pages[procs[np].trapframe := c]); forall x: nat :: x < Up(procs[p].sz) ==>
      Seen(s', p, Up(procs[p].sz), x) == Seen(s, p, Up(procs[p].sz), x)
  {
    assert ProcOk(s, Slot(procs, np), np) && ProcOk(s, Slot(procs, p), p);
    var tf, n := procs[np].trapframe, Up(procs[p].sz);
    var s' := s.(pages := s.pages[tf := c]);
    StoredKeeps(s, tf, c);
    forall x: nat | x < n ensures Seen(s', p, n, x) == Seen(s, p, n, x) {
      TrKept(s, s', p, x);
      assert Owned(s, p, x);
    }
  }

  lemma NotFrame(s: State, p: nat, v: nat)
    requires Inv(s) && (!Tr(s, p, v).v || !(0 <= Tr(s, p, v).ppn < |s.own|) || s.own[Tr(s, p, v).ppn] != Frame(p, v))
    ensures NoFrame(s, p, v)
  {
    forall q | 0 <= q < |s.own| ensures s.own[q] != Frame(p, v) { assert PageOk(s, q); }
  }

  lemma GoneKeeps(s: State, s': State, p: nat, v: nat)
    requires Gone(s, s', p, v, 1, false)
    ensures forall x: nat :: x != v ==> (Owned(s, p, x) ==> Owned(s', p, x)) && (NoFrame(s, p, x) ==> NoFrame(s', p, x))
  {
    forall x: nat | x != v ensures (Owned(s, p, x) ==> Owned(s', p, x)) && (NoFrame(s, p, x) ==> NoFrame(s', p, x)) {
      assert if v <= x < v + 1 then !Tr(s', p, x).v else Tr(s', p, x) == Tr(s, p, x);
      if Owned(s, p, x) && Tr(s, p, x).v { assert GoneAt(s, s', p, v, 1, false, Tr(s, p, x).ppn); }
      forall q | 0 <= q < |s.own| && s'.own[q] == Frame(p, x) ensures s.own[q] == Frame(p, x) { assert GoneAt(s, s', p, v, 1, false, q); }
    }
  }

  // ------------------------------------------------------------------- sizes

  /** The size after `sbrk(n)`; shrinking by more than there is leaves it. */
  function NewSize(sz: nat, n: int, ok: bool): nat {
    if ok && sz + n >= 0 then sz + n else sz
  }

  /** What the user sees after a change of size: old pages as before, new ones zero. */
  function Resized(s: State, p: nat, n: nat, x: nat): View {
    if x < n then Seen(s, p, n, x) else Page(USER, ZeroPage())
  }

  lemma UpBounds(sz: nat, n: int)
    requires Up(sz) <= TRAPFRAME && -0x8000_0000 <= n < 0x8000_0000
    ensures sz <= TOP && (0 <= sz + n <= TOP ==> Up(sz + n) <= TRAPFRAME)
    ensures n >= 0 ==> Up(sz) <= Up(sz + n)
    ensures n < 0 && sz + n >= 0 ==> Up(sz + n) <= Up(sz)
    ensures sz + n < 0 ==> (sz + n) % 0x1_0000_0000_0000_0000 >= sz
    ensures sz + n >= 0 ==> (sz + n) % 0x1_0000_0000_0000_0000 == sz + n
  {
  }

  /** Growing the size alone: the new pages are seen as zeros. */
  lemma LazySpace(s: State, p: nat, n: nat, n': nat)
    requires SpaceOk(s, p, n) && n <= n' <= TRAPFRAME
    ensures SpaceOk(s, p, n') && forall x: nat | x < n' :: Seen(s, p, n', x) == Resized(s, p, n, x)
  {
    forall x: nat ensures Tr(s, p, x).v ==> if x < n' then Owned(s, p, x) else AboveUser(x) && !Tr(s, p, x).perm.u {
      assert Tr(s, p, x).v ==> if x < n then Owned(s, p, x) else AboveUser(x) && !Tr(s, p, x).perm.u;
    }
  }

  lemma ForkSeen(s: State, s1: State, s2: State, p: nat, np: nat, n: nat)
    requires Inv(s) && Inv(s1) && p != np && SpaceOk(s, p, n) && Only(s, s1, np) && Only(s1, s2, np)
    requires forall x: nat | x < n :: ViewOf(s2, np, x) == ViewOf(s1, p, x)
    ensures forall x: nat | x < n :: Seen(s2, np, n, x) == Seen(s, p, n, x) == Seen(s2, p, n, x)
  {
    forall x: nat | x < n ensures Seen(s2, np, n, x) == Seen(s, p, n, x) == Seen(s2, p, n, x) {
      OnlyView(s, s1, np, p, x);
      OnlyView(s1, s2, np, p, x);
    }
  }

  // ------------------------------------------------------ page conservation

  /** Where a page can be, read off the free list, the process table and the page tables. */
  datatype Place = OnFreeList(k: nat) | InTables(p: nat) | InMemory(p: nat, v: nat) | AsTrapframe(p: nat)

  ghost predicate Holds(s: State, procs: seq<Proc>, place: Place, q: nat) {
    match place
    case OnFreeList(k) => k < |s.free| && s.free[k] == q
    case InTables(p) => Slot(procs, p).used && (Slot(procs, p).pagetable == q || exists v: nat :: Mid(s, p, v) == q || Bottom(s, p, v) == q)
    case InMemory(p, v) => Slot(procs, p).used && v < Up(Slot(procs, p).sz) && Tr(s, p, v).v && Tr(s, p, v).ppn == q
    case AsTrapframe(p) => Slot(procs, p).used && Slot(procs, p).trapframe == q
  }

  /** The place that a holder stands for. */
  function PlaceOf(r: Role): Place {
    match r
    case Free(k) => OnFreeList(k)
    case Hand(p) => AsTrapframe(p)
    case Frame(p, v) => InMemory(p, v)
    case _ => InTables(r.p)
  }

  lemma HeldThere(s: State, procs: seq<Proc>, place: Place, q: nat)
    requires Kept(s, procs) && q < |s.own| && Holds(s, procs, place, q)
    ensures place == PlaceOf(s.own[q])
  {
    match place {
      case OnFreeList(k) => assert FreeOk(s, k);
      case AsTrapframe(p) => assert ProcOk(s, Slot(procs, p), p);
      case InMemory(p, v) => assert ProcOk(s, Slot(procs, p), p); assert Owned(s, p, v);
      case InTables(p) =>
        assert ProcOk(s, Slot(procs, p), p) && RootOk(s, p);
        if Slot(procs, p).pagetable != q {
          var v: nat :| Mid(s, p, v) == q || Bottom(s, p, v) == q;
          Path(s, p, v);
        }
    }
  }

  lemma TableReached(s: State, p: nat, q: nat) returns (v: nat)
    requires Inv(s) && NoDoomed(s) && q < |s.own| && s.own[q].Node? && s.own[q].p == p
    ensures Mid(s, p, v) == q || Bottom(s, p, v) == q
  {
    assert PageOk(s, q);
    if s.own[q].level == 0 {
      v := Reached(s, p, q, 0);
    } else {
      var r, i := s.own[q].t, s.own[q].idx;
      assert PageOk(s, r);
      v := i * 0x4_0000;
      assert v / 0x4_0000 == i;
    }
  }

  lemma HeldBy(s: State, procs: seq<Proc>, q: nat)
    requires Kept(s, procs) && q < |s.own|
    ensures Holds(s, procs, PlaceOf(s.own[q]), q)
  {
    assert PageOk(s, q);
    if !s.own[q].Free? {
      var p := s.own[q].p;
      assert ProcOk(s, Slot(procs, p), p);
      match s.own[q] {
        case Node(_, _, _, _) =>
          var v := TableReached(s, p, q);
          Path(s, p, v);
        case Frame(_, v) => Path(s, p, v);
        case _ =>
      }
    }
  }

  /** Every page is in exactly one place. */
  lemma Conservation(s: State, procs: seq<Proc>, q: nat)
    requires Kept(s, procs) && q < |s.pages|
    ensures exists place :: Holds(s, procs, place, q)
    ensures forall place, place' :: Holds(s, procs, place, q) && Holds(s, procs, place', q) ==> place == place'
  {
    HeldBy(s, procs, q);
    forall place, place' | Holds(s, procs, place, q) && Holds(s, procs, place', q) ensures place == place' {
      HeldThere(s, procs, place, q);
      HeldThere(s, procs, place', q);
    }
  }

  // -------------------------------------------------- sharing nothing, seeing the same

  /** Every process but `p` sees its memory as before. */
  ghost predicate OthersSee(s: State, s': State, procs: seq<Proc>, p: nat) {
    forall p': nat, x: nat {:trigger Seen(s', p', Up(Slot(procs, p').sz), x)} ::
      p' != p && Slot(procs, p').used && x < Up(Slot(procs, p').sz) ==>
        Seen(s', p', Up(Slot(procs, p').sz), x) == Seen(s, p', Up(Slot(procs, p').sz), x)
  }

  /** Faults and copies for one process keep the invariant, and no other process sees them. */
  lemma UserKept(s: State, s': State, procs: seq<Proc>, p: nat)
    requires Kept(s, procs) && p < |procs| && procs[p].used && Inv(s')
    requires SpaceOk(s', p, Up(procs[p].sz)) && Gained(s, s', p, 0, Up(procs[p].sz))
    ensures Kept(s', procs) && OthersSee(s, s', procs, p)
  {
    var n := Up(procs[p].sz);
    assert ProcOk(s, Slot(procs, p), p);
    GainedProc(s, s', p, 0, n, procs[p].trapframe);
    assert SameEntry(Tr(s, p, TRAPFRAME), Tr(s', p, TRAPFRAME)) && SameEntry(Tr(s, p, TRAMPOLINE), Tr(s', p, TRAMPOLINE));
    AllKept(s, s', procs, procs, p);
    forall p': nat, x: nat | p' != p && Slot(procs, p').used && x < Up(Slot(procs, p').sz)
      ensures Seen(s', p', Up(Slot(procs, p').sz), x) == Seen(s, p', Up(Slot(procs, p').sz), x)
    {
      assert ProcOk(s, Slot(procs, p'), p');
      OnlyView(s, s', p, p', x);
    }
  }

  /** Two machines whose user sees the same, one grown lazily and one eagerly. */
  ghost predicate Alike(s: State, t: State, p: nat, n: nat) {
    && (forall x: nat {:trigger Seen(t, p, n, x)} :: x < n ==> SameRights(Seen(s, p, n, x), Seen(t, p, n, x)))
    && (forall a: nat {:trigger ByteAt(t, p, n, a)} :: a / PGSIZE < n ==> ByteAt(t, p, n, a) == ByteAt(s, p, n, a))
  }

  /** They read the same bytes, may touch the same pages, and stay alike when both write. */
  lemma AlikeWrites(s: State, t: State, s': State, t': State, p: nat, n: nat, va: nat, src: seq<byte>, k: nat)
    requires Alike(s, t, p, n) && k <= |src| && Wrote(s, s', p, n, va, src, k) && Wrote(t, t', p, n, va, src, k)
    ensures Alike(s', t', p, n)
  {
    forall x: nat | x < n ensures SameRights(Seen(s', p, n, x), Seen(t', p, n, x)) {
      assert SameRights(Seen(s, p, n, x), Seen(s', p, n, x)) && SameRights(Seen(t, p, n, x), Seen(t', p, n, x)) && SameRights(Seen(s, p, n, x), Seen(t, p, n, x));
    }
    forall a: nat | a / PGSIZE < n ensures ByteAt(t', p, n, a) == ByteAt(s', p, n, a) {
      assert ByteAt(t', p, n, a) == if va <= a < va + k then src[a - va] else ByteAt(t, p, n, a);
      assert ByteAt(s', p, n, a) == if va <= a < va + k then src[a - va] else ByteAt(s, p, n, a);
      assert ByteAt(t, p, n, a) == ByteAt(s, p, n, a);
    }
  }

  lemma AlikeReads(s: State, t: State, p: nat, n: nat, va: nat, len: nat, dst: seq<byte>, dst': seq<byte>)
    requires Alike(s, t, p, n) && |dst| == |dst'| == len && Copied(s, p, n, va, dst) && Copied(t, p, n, va, dst')
    requires SpaceOk(s, p, n) && AllPages(s, p, n, va, len, false)
    ensures dst == dst' && AllPages(t, p, n, va, len, false)
  {
    forall v: nat | va / PGSIZE <= v && v * PGSIZE < va + len && len > 0 ensures v < n && Allows(Seen(t, p, n, v), false) {
      SeenBelow(s, p, n, v);
      assert SameRights(Seen(s, p, n, v), Seen(t, p, n, v));
    }
    forall i: nat | i < len ensures dst[i] == dst'[i] {
      var a := va + i;
      assert va / PGSIZE <= a / PGSIZE && a / PGSIZE * PGSIZE < va + len;
      assert ByteAt(t, p, n, a) == ByteAt(s, p, n, a);
    }
  }

  /** A change of size by the same amount, each in its own way, keeps them alike. */
  lemma AlikeGrowth(s: State, t: State, s': State, t': State, p: nat, n: nat, n': nat)
    requires Alike(s, t, p, n)
    requires forall x: nat | x < n' :: Seen(s', p, n', x) == Resized(s, p, n, x) && Seen(t', p, n', x) == Resized(t, p, n, x)
    ensures Alike(s', t', p, n')
  {
    forall x: nat | x < n' ensures SameRights(Seen(s', p, n', x), Seen(t', p, n', x)) {
      if x < n { assert SameRights(Seen(s, p, n, x), Seen(t, p, n, x)); }
    }
    forall a: nat | a / PGSIZE < n' ensures ByteAt(t', p, n', a) == ByteAt(s', p, n', a) {
      var x := a / PGSIZE;
      assert Seen(s', p, n', x) == Resized(s, p, n, x) && Seen(t', p, n', x) == Resized(t, p, n, x);
      if x < n { assert ByteAt(t, p, n, a) == ByteAt(s, p, n, a); }
    }
  }

  /** What a process and the kernel do to its memory. */
  datatype Op = Resize(n: int) | Touch | Put(va: nat, src: seq<byte>)

  datatype Machine = Machine(s: State, sz: nat)

  /** The contracts of `sbrk`, of faults and `copyin`, and of `copyout`, when they succeed. */
  ghost predicate Does(m: Machine, m': Machine, p: nat, op: Op) {
    match op
    case Resize(n) =>
      && m'.sz == NewSize(m.sz, n, true)
      && forall x: nat | x < Up(m'.sz) :: Seen(m'.s, p, Up(m'.sz), x) == Resized(m.s, p, Up(m.sz), x)
    case Touch => m'.sz == m.sz && Unseen(m.s, m'.s, p, Up(m.sz))
    case Put(va, src) => m'.sz == m.sz && Wrote(m.s, m'.s, p, Up(m.sz), va, src, |src|)
  }

  ghost predicate Run(ms: seq<Machine>, p: nat, ops: seq<Op>) {
    |ms| == |ops| + 1 && forall i: nat {:trigger ops[i]} :: i < |ops| ==> Does(ms[i], ms[i + 1], p, ops[i])
  }

  lemma AlikeStep(m: Machine, k: Machine, m': Machine, k': Machine, p: nat, op: Op)
    requires m.sz == k.sz && Alike(m.s, k.s, p, Up(m.sz)) && Does(m, m', p, op) && Does(k, k', p, op)
    ensures m'.sz == k'.sz && Alike(m'.s, k'.s, p, Up(m'.sz))
  {
    var n := Up(m.sz);
    match op {
      case Resize(_) => AlikeGrowth(m.s, k.s, m'.s, k'.s, p, n, Up(m'.sz));
      case Put(va, src) => AlikeWrites(m.s, k.s, m'.s, k'.s, p, n, va, src, |src|);
      case Touch =>
        forall x: nat | x < n ensures SameRights(Seen(m'.s, p, n, x), Seen(k'.s, p, n, x)) {
          assert SameRights(Seen(m.s, p, n, x), Seen(k.s, p, n, x));
        }
        forall a: nat | a / PGSIZE < n ensures ByteAt(k'.s, p, n, a) == ByteAt(m'.s, p, n, a) {
          assert Seen(k'.s, p, n, a / PGSIZE) == Seen(k.s, p, n, a / PGSIZE) && Seen(m'.s, p, n, a / PGSIZE) == Seen(m.s, p, n, a / PGSIZE);
          assert ByteAt(k.s, p, n, a) == ByteAt(m.s, p, n, a);
        }
    }
  }

  /** While memory lasts, a lazy run and an eager run of the same operations see the same memory throughout. */
  lemma {:induction false} LazyIsEager(lazy: seq<Machine>, eager: seq<Machine>, p: nat, ops: seq<Op>, i: nat)
    requires Run(lazy, p, ops) && Run(eager, p, ops) && i <= |ops|
    requires lazy[0].sz == eager[0].sz && Alike(lazy[0].s, eager[0].s, p, Up(lazy[0].sz))
    ensures lazy[i].sz == eager[i].sz && Alike(lazy[i].s, eager[i].s, p, Up(lazy[i].sz))
  {
    if i > 0 {
      LazyIsEager(lazy, eager, p, ops, i - 1);
      var j := i - 1;
      assert Does(lazy[j], lazy[j + 1], p, ops[j]) && Does(eager[j], eager[j + 1], p, ops[j]);
      AlikeStep(lazy[j], eager[j], lazy[i], eager[i], p, ops[j]);
    }
  }
}
