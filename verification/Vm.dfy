/**
 The page allocator (kalloc.c) and the page-table code (vm.c).  Methods take the
 page number of a root table, as the source does, and the ghost number `p` of
 the address space it is the root of.  Virtual and physical addresses are page
 numbers except where bytes matter.
 */
module Vm {

  import opened Common
  import opened PageTable
  import opened UserMemory

  /** The index of virtual page `v` in a table of this level. */
  function PX(level: nat, v: nat): (i: nat)
    requires level <= 2
    ensures i < ENTRIES
  {
    if level == 2 then v / 0x4_0000 % 512 else if level == 1 then v / 512 % 512 else v % 512
  }

  /** The table of this level on the walk to `v`. */
  ghost function TableAt(s: State, p: nat, v: nat, level: nat): int {
    if level == 2 then Top(s, p) else if level == 1 then Mid(s, p, v) else Bottom(s, p, v)
  }

  lemma WalkDown(s: State, p: nat, v: nat, level: nat, t: nat)
    requires Inv(s) && t == TableAt(s, p, v, level) && 0 < level <= 2 && v < MAXPAGES
    ensures t < |s.pages| && IsTableOf(s.own[t], p) && IsNode(s.own[t], p, level) && s.pages[t].Table? && |s.pages[t].ptes| == ENTRIES
    ensures var e := s.pages[t].ptes[PX(level, v)];
      && (e.v ==> e.ppn >= 0 && TableAt(s, p, v, level - 1) == e.ppn)
      && (!e.v ==> TableAt(s, p, v, level - 1) == -1 && Bottom(s, p, v) == -1)
  {
    Path(s, p, v);
    assert PageOk(s, t) && ChildOk(s, t, PX(level, v), p, level);
  }

  /** A missing table on the way to `v` is added. */
  lemma HungDown(s: State, p: nat, v: nat, level: nat, t: nat)
    requires Inv(s) && s.free != [] && t == TableAt(s, p, v, level) && 0 < level <= 2 && v < MAXPAGES && t < |s.pages|
    requires IsTableOf(s.own[t], p) && IsNode(s.own[t], p, level) && !At(s.pages, t, PX(level, v)).v
    ensures var q := s.free[|s.free| - 1]; q < |s.pages| && Hangs(Taken(s, p), p, level, t, PX(level, v), q)
    ensures var q := s.free[|s.free| - 1]; var s' := Hung(Taken(s, p), p, level, t, PX(level, v), q);
      Inv(s') && Walked(s, s', p) && TableAt(s', p, v, level - 1) == q
  {
    HungWalk(s, p, level, t, PX(level, v));
    TakenKeeps(s, p);
    TrKept(s, Taken(s, p), p, v);
    Path(s, p, v);
  }

  class Memory {
    var free: seq<nat>
    var pages: seq<Contents>
    ghost var own: seq<Role>
    ghost var roots: map<nat, nat>

    ghost function S(): State
      reads this
    {
      State(free, pages, own, roots)
    }

    /** `kinit`: all `n` pages between the kernel's end and PHYSTOP go to the free list. */
    constructor (n: nat)
      ensures Inv(S()) && |pages| == n && roots == map[] && forall q :: 0 <= q < n ==> own[q].Free?
    {
      free, roots := [], map[];
      pages := seq(n, i => Filled(0));
      own := seq(n, i => Hand(0));
      new;
      assert forall q {:trigger PageOk(S(), q)} :: PageOk(S(), q);
      Freerange(0, n);
    }

    method Freerange(lo: nat, hi: nat)
      requires Inv(S()) && lo <= hi <= |own| && forall q :: lo <= q < hi ==> own[q].Hand?
      modifies this
      ensures Inv(S()) && |pages| == |old(pages)| && roots == old(roots)
      ensures forall q :: 0 <= q < |pages| ==> if lo <= q < hi then own[q].Free? else own[q] == old(own)[q]
    {
      var p := lo;
      while p + 1 <= hi
        invariant lo <= p <= hi && Inv(S()) && |pages| == |old(pages)| && roots == old(roots) && |own| == |old(own)|
        invariant forall q :: 0 <= q < |own| ==> if lo <= q < p then own[q].Free? else own[q] == old(own)[q]
      {
        var panic := Kfree(p);
        p := p + 1;
      }
    }

    method Kalloc(ghost p: nat) returns (q: int)
      requires Inv(S())
      modifies this
      ensures Inv(S())
      ensures old(free) == [] ==> q == -1 && S() == old(S())
      ensures old(free) != [] ==> q == old(free)[|old(free)| - 1] && q < |old(pages)| == |old(own)| && S() == Taken(old(S()), p)
    {
      if free == [] { return -1; }
      TakenKeeps(S(), p);
      q := free[|free| - 1];
      free := free[..|free| - 1];
      pages := pages[q := Filled(5)];
      own := own[q := Hand(p)];
    }

    /** Panics for a page outside the managed range, and then changes nothing. */
    method Kfree(q: int) returns (panic: bool)
      requires Inv(S()) && (0 <= q < |pages| ==> Freeable(own[q]))
      modifies this
      ensures Inv(S()) && panic == !(0 <= q < |old(pages)|) && |old(own)| == |old(pages)|
      ensures S() == if panic then old(S()) else Freed(old(S()), q)
    {
      panic := q < 0 || q >= |pages|;
      if panic { return; }
      FreedKeeps(S(), q);
      pages := pages[q := Filled(1)];
      own := own[q := Free(|free|)];
      free := free + [q];
    }

    /** The part of `walk` that adds a table under entry `i` of `t`. */
    method NewTable(ghost p: nat, ghost level: nat, t: nat, i: nat) returns (q: int)
      requires Inv(S()) && t < |pages| && 0 < level <= 2 && i < ENTRIES && IsNode(own[t], p, level) && IsTableOf(own[t], p)
      requires !At(pages, t, i).v
      modifies this
      ensures old(free) == [] ==> q == -1 && S() == old(S())
      ensures old(free) != [] ==>
        && q == old(free)[|old(free)| - 1] && q < |old(pages)| == |old(own)|
        && Hangs(Taken(old(S()), p), p, level, t, i, q) && S() == Hung(Taken(old(S()), p), p, level, t, i, q)
    {
      ghost var s := S();
      q := Kalloc(p);
      if q < 0 { return; }
      HungWalk(s, p, level, t, i);
      pages := pages[q := Zeros()];
      pages := pages[t := Table(pages[t].ptes[i := Pte(true, q, NOPERM)])];
      own := own[q := Node(p, level - 1, t, i)];
    }

    /** The bottom table for `v`, or -1; panics for an address from MAXVA on. */
    method Walk(ghost p: nat, pt: nat, v: nat, alloc: bool) returns (t: int, panic: bool)
      requires Inv(S()) && p in roots && roots[p] == pt
      modifies this
      ensures Inv(S()) && Walked(old(S()), S(), p) && panic == (v >= MAXPAGES)
      ensures !alloc || panic ==> S() == old(S())
      ensures t == if panic then -1 else Bottom(S(), p, v)
      ensures t >= 0 ==> t < |pages| && IsTableOf(own[t], p) && pages[t].Table? && |pages[t].ptes| == ENTRIES
      ensures t < 0 ==> t == -1 && (alloc && !panic ==> free == [])
      ensures |free| <= |old(free)| <= |free| + (if t < 0 then 1 else 2)
    {
      WalkedRefl(S(), p);
      panic := v >= MAXPAGES;
      if panic { return -1, true; }
      t := pt;
      var level := 2;
      while level > 0
        invariant 0 <= level <= 2 && 0 <= t == TableAt(S(), p, v, level)
        invariant Inv(S()) && Walked(old(S()), S(), p) && (!alloc ==> S() == old(S()))
        invariant |free| <= |old(free)| <= |free| + (2 - level)
      {
        WalkDown(S(), p, v, level, t);
        var e := pages[t].ptes[PX(level, v)];
        if e.v {
          t := e.ppn;
        } else {
          if !alloc { return -1, false; }
          ghost var s := S();
          var q := NewTable(p, level, t, PX(level, v));
          if q < 0 { return -1, false; }
          HungDown(s, p, v, level, t);
          WalkedTrans(old(S()), s, S(), p);
          t := q;
        }
        level := level - 1;
      }
      Path(S(), p, v);
      assert PageOk(S(), t);
    }

    /**
     Map `n` pages from `ppn` at `v`; short of memory the first `done` are mapped.
     Panics for no pages, beyond MAXVA, and at a page that is already mapped.
     */
    method Mappages(ghost p: nat, pt: nat, v: nat, n: nat, ppn: int, perm: Perm, ghost take: bool)
      returns (ok: bool, panic: bool, ghost done: nat)
      requires Inv(S()) && p in roots && roots[p] == pt && Leaf(perm)
      requires take ==> 0 <= ppn && ppn + n <= |own| && forall q :: ppn <= q < ppn + n ==> own[q] == Hand(p)
      modifies this
      ensures Inv(S()) && Mapped(old(S()), S(), p, v, done, ppn, perm, take)
      ensures done <= n && (ok <==> done == n && n > 0) && (!ok && !panic ==> free == [])
      ensures panic <==> n == 0 || (done < n && (v + done >= MAXPAGES || Tr(old(S()), p, v + done).v))
      ensures |free| <= |old(free)| <= |free| + 2 * done + (if ok then 0 else if panic then 2 else 1)
    {
      ghost var s := S();
      MappedNone(s, p, v, ppn, perm, take);
      done := 0;
      if n == 0 { return false, true, 0; }
      var a, pa := v, ppn;
      while true
        invariant 0 <= done < n && a == v + done && pa == ppn + done && roots == old(roots)
        invariant Inv(S()) && Mapped(s, S(), p, v, done, ppn, perm, take)
        invariant |free| <= |old(free)| <= |free| + 2 * done
        decreases n - done
      {
        ghost var s1 := S();
        var t, bad := Walk(p, pt, a, true);
        MappedWalk(s, s1, S(), p, v, done, ppn, perm, take);
        assert Tr(S(), p, v + done) == Tr(s, p, v + done);
        if bad { return false, true, done; }
        if t < 0 { return false, false, done; }
        if pages[t].ptes[PX(0, a)].v { return false, true, done; }
        MappedNext(s, S(), p, v, done, ppn, perm, take, t);
        pages := pages[t := Table(pages[t].ptes[PX(0, a) := Pte(true, pa, perm)])];
        if take { own := own[pa := Frame(p, a)]; }
        done := done + 1;
        if a == v + n - 1 { return true, false, done; }
        a, pa := a + 1, pa + 1;
      }
    }

    /** One turn of `uvmunmap`: page `v`, if it is mapped. */
    method UnmapPage(ghost p: nat, pt: nat, v: nat, give: bool)
      requires Inv(S()) && p in roots && roots[p] == pt && v < MAXPAGES
      requires if give then Owned(S(), p, v) else NoFrame(S(), p, v)
      modifies this
      ensures Inv(S()) && Gone(old(S()), S(), p, v, 1, give) && |free| >= |old(free)|
    {
      ghost var s := S();
      GoneNone(s, p, v, give);
      var t, bad := Walk(p, pt, v, false);
      if t < 0 || !pages[t].ptes[PX(0, v)].v {
        GoneSkip(s, s, p, v, 0, give);
        return;
      }
      GoneNext(s, s, p, v, 0, give, t);
      if give { bad := Kfree(pages[t].ptes[PX(0, v)].ppn); }
      pages := pages[t := Table(pages[t].ptes[PX(0, v) := ZERO])];
    }

    method Uvmunmap(ghost p: nat, pt: nat, v: nat, n: nat, give: bool)
      requires Inv(S()) && p in roots && roots[p] == pt && v + n <= MAXPAGES
      requires forall x :: v <= x < v + n ==> if give then Owned(S(), p, x) else NoFrame(S(), p, x)
      modifies this
      ensures Inv(S()) && Gone(old(S()), S(), p, v, n, give)
      ensures |free| >= |old(free)|
    {
      ghost var s := S();
      GoneNone(s, p, v, give);
      var a := v;
      while a < v + n
        invariant v <= a <= v + n && roots == old(roots)
        invariant Inv(S()) && Gone(s, S(), p, v, a - v, give) && |free| >= |old(free)|
      {
        ghost var s1 := S();
        GoneOwned(s, s1, p, v, a - v, give);
        UnmapPage(p, pt, a, give);
        GoneTrans(s, s1, S(), p, v, a - v, give);
        a := a + 1;
      }
    }

    /** `kalloc`, fill, `mappages`, and `kfree` if that fails: how every user page is made.  Returns its page number or -1. */
    method AddPage(ghost p: nat, pt: nat, v: nat, perm: Perm, data: seq<byte>) returns (q: int)
      requires Inv(S()) && p in roots && roots[p] == pt && v < MAXPAGES && !Tr(S(), p, v).v && Leaf(perm) && |data| == PGSIZE
      modifies this
      ensures Inv(S())
      ensures q >= 0 ==> Gained(old(S()), S(), p, v, v + 1) && Tr(S(), p, v).ppn == q && ViewOf(S(), p, v) == Page(perm, data)
      ensures q < 0 ==> Gained(old(S()), S(), p, v, v) && |old(free)| < 3
      ensures |old(free)| <= |free| + 3
    {
      ghost var s := S();
      q := Kalloc(p);
      if q < 0 {
        GainedNone(s, p, v);
        return;
      }
      TakenFilled(s, p, data, v);
      pages := pages[q := Bytes(data)];
      var ok, panic, done := Mappages(p, pt, v, 1, q, perm, true);
      if ok {
        GainedPage(s, S(), p, v, perm, data);
        return;
      }
      GainedTables(s, S(), p, v, perm, data);
      var bad := Kfree(q);
      q := -1;
    }

    method Uvmdealloc(ghost p: nat, pt: nat, oldsz: nat, newsz: nat) returns (sz: nat)
      requires Inv(S()) && p in roots && roots[p] == pt && Up(oldsz) <= MAXPAGES
      requires forall x :: Up(newsz) <= x < Up(oldsz) ==> Owned(S(), p, x)
      modifies this
      ensures Inv(S()) && |free| >= |old(free)| && sz == (if newsz >= oldsz then oldsz else newsz)
      ensures newsz >= oldsz ==> S() == old(S())
      ensures newsz < oldsz ==> Gone(old(S()), S(), p, Up(newsz), Up(oldsz) - Up(newsz), true)
    {
      if newsz >= oldsz { return oldsz; }
      if Up(newsz) < Up(oldsz) {
        Uvmunmap(p, pt, Up(newsz), Up(oldsz) - Up(newsz), true);
      } else {
        GoneNone(S(), p, Up(newsz), true);
      }
      sz := newsz;
    }

    /** Returns `newsz`, or 0 when memory ran out and every page was given back. */
    method Uvmalloc(ghost p: nat, pt: nat, oldsz: nat, newsz: nat, perm: Perm) returns (sz: nat)
      requires Inv(S()) && p in roots && roots[p] == pt && Up(newsz) <= MAXPAGES && Leaf(perm)
      requires forall x :: Up(oldsz) <= x < Up(newsz) ==> !Tr(S(), p, x).v
      modifies this
      ensures Inv(S())
      ensures newsz < oldsz ==> sz == oldsz && S() == old(S())
      ensures newsz >= oldsz && sz == newsz && newsz > 0 ==>
        Gained(old(S()), S(), p, Up(oldsz), Up(newsz)) && forall x: nat :: Up(oldsz) <= x < Up(newsz) ==> ViewOf(S(), p, x) == Page(perm, ZeroPage())
      ensures newsz >= oldsz && sz != newsz ==>
        sz == 0 && Gained(old(S()), S(), p, Up(oldsz), Up(oldsz)) && |old(free)| < 3 * (Up(newsz) - Up(oldsz))
    {
      if newsz < oldsz { return oldsz; }
      ghost var s := S();
      var lo := Up(oldsz);
      var a := lo;
      GainedNone(s, p, lo);
      while a * PGSIZE < newsz
        invariant lo <= a <= Up(newsz) && roots == old(roots) && Inv(S()) && Zeroed(s, S(), p, lo, a, perm)
        invariant |old(free)| <= |free| + 3 * (a - lo)
      {
        ghost var s1 := S();
        assert SameEntry(Tr(s, p, a), Tr(s1, p, a));
        var q := AddPage(p, pt, a, perm, ZeroPage());
        if q < 0 {
          GainedTrans(s, s1, S(), p, lo, a, a);
          ghost var s2 := S();
          var r := Uvmdealloc(p, pt, a * PGSIZE, lo * PGSIZE);
          if lo < a { GainedUndo(s, s2, S(), p, lo, a); }
          return 0;
        }
        ZeroedNext(s, s1, S(), p, lo, a, perm);
        a := a + 1;
      }
      sz := newsz;
    }

    /** One turn of `uvmcopy`: page `i`, if the parent has it. */
    method CopyPage(ghost p: nat, pt: nat, ghost np: nat, npt: nat, i: nat) returns (ok: bool)
      requires Inv(S()) && p in roots && roots[p] == pt && np in roots && roots[np] == npt && p != np && i < MAXPAGES
      requires Owned(S(), p, i) && !Tr(S(), np, i).v
      modifies this
      ensures Inv(S()) && roots == old(roots) && |old(free)| <= |free| + 3
      ensures ok ==> Gained(old(S()), S(), np, i, i + 1) && ViewOf(S(), np, i) == ViewOf(old(S()), p, i)
      ensures !ok ==> Gained(old(S()), S(), np, i, i) && |old(free)| < 3
    {
      ghost var s := S();
      var t, bad := Walk(p, pt, i, false);
      if t < 0 || !pages[t].ptes[PX(0, i)].v {
        GainedNone(s, np, i);
        GainedSkip(s, s, np, i, i);
        return true;
      }
      var e := pages[t].ptes[PX(0, i)];
      Path(s, p, i);
      assert PageOk(s, e.ppn);
      var q := AddPage(np, npt, i, e.perm, pages[e.ppn].data);
      ok := q >= 0;
    }

    /** Copies the first `sz` bytes' pages of space `p` into `np`. */
    method Uvmcopy(ghost p: nat, pt: nat, ghost np: nat, npt: nat, sz: nat) returns (ok: bool)
      requires Inv(S()) && p in roots && roots[p] == pt && np in roots && roots[np] == npt && p != np && Up(sz) <= MAXPAGES
      requires forall x: nat :: x < Up(sz) ==> Owned(S(), p, x) && !Tr(S(), np, x).v
      modifies this
      ensures Inv(S())
      ensures ok ==> Gained(old(S()), S(), np, 0, Up(sz)) && forall x: nat :: x < Up(sz) ==> ViewOf(S(), np, x) == ViewOf(old(S()), p, x)
      ensures !ok ==> Gained(old(S()), S(), np, 0, 0) && |old(free)| < 3 * Up(sz)
    {
      ghost var s := S();
      GainedNone(s, np, 0);
      var i := 0;
      while i * PGSIZE < sz
        invariant 0 <= i <= Up(sz) && roots == old(roots) && Inv(S()) && Twinned(s, S(), p, np, i)
        invariant |old(free)| <= |free| + 3 * i
      {
        ghost var s1 := S();
        GainedOnly(s, s1, np, 0, i);
        OnlyView(s, s1, np, p, i);
        assert SameEntry(Tr(s, np, i), Tr(s1, np, i));
        ok := CopyPage(p, pt, np, npt, i);
        if !ok {
          GainedTrans(s, s1, S(), np, 0, i, i);
          ghost var s2 := S();
          Uvmunmap(np, npt, 0, i, true);
          GainedUndo(s, s2, S(), np, 0, i);
          return false;
        }
        TwinnedNext(s, s1, S(), p, np, i);
        i := i + 1;
      }
      ok := true;
    }

    /** Maps a zeroed page at `va` if it lies below `sz` and is not mapped; returns its page number or -1. */
    method Vmfault(ghost p: nat, pt: nat, va: nat, sz: nat) returns (q: int)
      requires Inv(S()) && p in roots && roots[p] == pt && SpaceOk(S(), p, Up(sz))
      modifies this
      ensures Unseen(old(S()), S(), p, Up(sz))
      ensures q >= 0 ==> va < sz && !Tr(old(S()), p, va / PGSIZE).v && Tr(S(), p, va / PGSIZE) == Pte(true, q, USER)
      ensures q < 0 ==> va >= sz || Tr(old(S()), p, va / PGSIZE).v || |old(free)| < 3
      ensures va >= sz ==> S() == old(S())
      ensures |old(free)| <= |free| + 3
    {
      ghost var s, n := S(), Up(sz);
      UnseenSame(s, p, n);
      if va >= sz { return -1; }
      var v := va / PGSIZE;
      var t, bad := Walk(p, pt, v, false);
      if t >= 0 && pages[t].ptes[PX(0, v)].v { return -1; }
      q := AddPage(p, pt, v, USER, ZeroPage());
      if q < 0 {
        TablesSeen(s, S(), p, n, v);
      } else {
        FaultSeen(s, S(), p, n, v);
      }
    }

    /** `walkaddr`, then `vmfault`: the page that holds user page `v`, or -1. */
    method UserPage(ghost p: nat, pt: nat, v: nat, sz: nat) returns (q: int)
      requires Inv(S()) && p in roots && roots[p] == pt && SpaceOk(S(), p, Up(sz))
      modifies this
      ensures Unseen(old(S()), S(), p, Up(sz))
      ensures q >= 0 ==> v < Up(sz) && q < |pages| && Tr(S(), p, v).v && Tr(S(), p, v).ppn == q && IsData(pages[q])
      ensures q >= 0 ==> Seen(old(S()), p, Up(sz), v) == Page(Tr(S(), p, v).perm, pages[q].data)
      ensures q >= 0 ==> Allows(Seen(old(S()), p, Up(sz), v), false)
      ensures q < 0 ==> !Allows(Seen(old(S()), p, Up(sz), v), false) || |old(free)| < 3
      ensures |old(free)| <= |free| + 3
    {
      ghost var s, n := S(), Up(sz);
      UnseenSame(s, p, n);
      MappedUser(s, p, n, v);
      Path(s, p, v);
      if v < MAXPAGES {
        var t, bad := Walk(p, pt, v, false);
        if t >= 0 && pages[t].ptes[PX(0, v)].v && pages[t].ptes[PX(0, v)].perm.u {
          return pages[t].ptes[PX(0, v)].ppn;
        }
      }
      q := Vmfault(p, pt, v * PGSIZE, sz);
      MappedUser(S(), p, n, v);
    }

    /** One turn of `copyin`: the bytes from `src` to the end of the page, at most `rest` of them. */
    method CopyinPage(ghost p: nat, pt: nat, src: nat, rest: nat, sz: nat) returns (ok: bool, more: seq<byte>)
      requires Inv(S()) && p in roots && roots[p] == pt && rest > 0 && SpaceOk(S(), p, Up(sz))
      modifies this
      ensures roots == old(roots) && Unseen(old(S()), S(), p, Up(sz)) && |old(free)| <= |free| + 3
      ensures ok ==> var w := Seen(old(S()), p, Up(sz), src / PGSIZE);
        Allows(w, false) && |w.data| == PGSIZE && more == Piece(w, src, rest)
      ensures !ok ==> !Allows(Seen(old(S()), p, Up(sz), src / PGSIZE), false) || |old(free)| < 3
    {
      var v := src / PGSIZE;
      var q := UserPage(p, pt, v, sz);
      if q < 0 { return false, []; }
      var off := src % PGSIZE;
      var m := PGSIZE - off;
      if m > rest { m := rest; }
      return true, pages[q].data[off..off + m];
    }

    /** The copy goes on by a page, or stops at one it cannot have. */
    method CopyinTurn(ghost s: State, ghost p: nat, pt: nat, srcva: nat, len: nat, dst: seq<byte>, sz: nat) returns (ok: bool, more: seq<byte>)
      requires p in roots && roots[p] == pt && |dst| < len && Copying(s, S(), p, Up(sz), srcva, len, dst)
      modifies this
      ensures roots == old(roots) && Unseen(s, S(), p, Up(sz))
      ensures ok ==> more != [] && Copying(s, S(), p, Up(sz), srcva, len, dst + more)
      ensures !ok ==> Stuck(s, p, Up(sz), srcva, len, false, (srcva + |dst|) / PGSIZE)
    {
      ghost var s1 := S();
      ok, more := CopyinPage(p, pt, srcva + |dst|, len - |dst|, sz);
      CopyingTurn(s, s1, S(), p, Up(sz), srcva, len, dst, ok);
    }

    method Copyin(ghost p: nat, pt: nat, srcva: nat, len: nat, sz: nat) returns (ok: bool, dst: seq<byte>)
      requires Inv(S()) && p in roots && roots[p] == pt && SpaceOk(S(), p, Up(sz))
      modifies this
      ensures Unseen(old(S()), S(), p, Up(sz))
      ensures ok ==> |dst| == len && Copied(old(S()), p, Up(sz), srcva, dst)
      ensures ok ==> AllPages(old(S()), p, Up(sz), srcva, len, false)
      ensures !ok ==> exists v: nat :: Stuck(old(S()), p, Up(sz), srcva, len, false, v)
    {
      ghost var s := S();
      UnseenSame(s, p, Up(sz));
      dst := [];
      while |dst| < len
        invariant roots == old(roots) && Copying(s, S(), p, Up(sz), srcva, len, dst)
      {
        var more;
        ok, more := CopyinTurn(s, p, pt, srcva, len, dst, sz);
        if !ok { return; }
        dst := dst + more;
      }
      ok := true;
    }

    /** The page for the next byte of a `copyout`, faulted in if needed and writable, or -1. */
    method WritablePage(ghost s: State, ghost p: nat, pt: nat, va: nat, ghost src: seq<byte>, k: nat, sz: nat) returns (q: int)
      requires p in roots && roots[p] == pt && k < |src| && SpaceOk(s, p, Up(sz)) && Wrote(s, S(), p, Up(sz), va, src, k)
      modifies this
      ensures roots == old(roots) && |old(free)| <= |free| + 3 && Wrote(s, S(), p, Up(sz), va, src, k)
      ensures q >= 0 ==> Allows(Seen(s, p, Up(sz), (va + k) / PGSIZE), true) && (va + k) / PGSIZE < Up(sz)
      ensures q >= 0 ==> q < |pages| && IsData(pages[q]) && Tr(S(), p, (va + k) / PGSIZE).v && Tr(S(), p, (va + k) / PGSIZE).ppn == q
      ensures q < 0 ==> !Allows(Seen(s, p, Up(sz), (va + k) / PGSIZE), true) || |old(free)| < 3
    {
      ghost var s1, n := S(), Up(sz);
      var v := (va + k) / PGSIZE;
      WroteAllows(s, s1, p, n, va, src, k, v, true);
      q := UserPage(p, pt, v, sz);
      WroteUnseen(s, s1, S(), p, n, va, src, k);
      if q >= 0 {
        var t, bad := Walk(p, pt, v, false);
        if !pages[t].ptes[PX(0, v)].perm.w { q := -1; }
      }
    }

    /** One turn of `copyout`: bytes of `src` from the `k`th on, to the end of the page. */
    method CopyoutPage(ghost s: State, ghost p: nat, pt: nat, va: nat, src: seq<byte>, k: nat, sz: nat) returns (ok: bool, m: nat)
      requires p in roots && roots[p] == pt && k < |src| && SpaceOk(s, p, Up(sz)) && Wrote(s, S(), p, Up(sz), va, src, k)
      requires AllPages(s, p, Up(sz), va, k, true) && (k > 0 ==> (va + k) % PGSIZE == 0)
      modifies this
      ensures roots == old(roots) && |old(free)| <= |free| + 3 && k + m <= |src| && Wrote(s, S(), p, Up(sz), va, src, k + m)
      ensures ok ==> m > 0 && AllPages(s, p, Up(sz), va, k + m, true)
      ensures ok ==> k + m == |src| || va + k + m == ((va + k) / PGSIZE + 1) * PGSIZE
      ensures !ok ==> m == 0 && (!Allows(Seen(s, p, Up(sz), (va + k) / PGSIZE), true) || |old(free)| < 3)
    {
      var q := WritablePage(s, p, pt, va, src, k, sz);
      if q < 0 { return false, 0; }
      var off := (va + k) % PGSIZE;
      m := PGSIZE - off;
      if m > |src| - k { m := |src| - k; }
      WroteNext(s, S(), p, Up(sz), va, src, k, m);
      OnePageMore(s, p, Up(sz), va, k, m, true);
      pages := pages[q := Bytes(Spliced(pages[q].data, off, src[k..k + m]))];
      ok := true;
    }

    method Copyout(ghost p: nat, pt: nat, dstva: nat, src: seq<byte>, sz: nat) returns (ok: bool, ghost k: nat)
      requires Inv(S()) && p in roots && roots[p] == pt && SpaceOk(S(), p, Up(sz))
      modifies this
      ensures k <= |src| && Wrote(old(S()), S(), p, Up(sz), dstva, src, k)
      ensures ok ==> k == |src| && AllPages(old(S()), p, Up(sz), dstva, |src|, true)
      ensures !ok ==> exists v: nat :: Stuck(old(S()), p, Up(sz), dstva, |src|, true, v)
    {
      ghost var s, n := S(), Up(sz);
      WroteNone(s, p, n, dstva, src);
      var done: nat := 0;
      while done < |src|
        invariant done <= |src| && (0 < done < |src| ==> (dstva + done) % PGSIZE == 0)
        invariant roots == old(roots) && Wrote(s, S(), p, n, dstva, src, done) && AllPages(s, p, n, dstva, done, true)
        invariant done < |src| ==> |old(free)| <= |free| + 3 * ((dstva + done) / PGSIZE - dstva / PGSIZE)
      {
        var m;
        ok, m := CopyoutPage(s, p, pt, dstva, src, done, sz);
        if !ok {
          assert Stuck(s, p, n, dstva, |src|, true, (dstva + done) / PGSIZE);
          k := done;
          return;
        }
        done := done + m;
      }
      return true, done;
    }

    /** One entry of `freewalk`: the table below it, if any, goes first. */
    method FreeEntry(ghost s: State, ghost p: nat, t: nat, i: nat, ghost level: nat)
      requires Inv(S()) && Bare(S(), p) && Torn(s, S(), p, t) && t < |pages| && i < ENTRIES && own[t] == Doomed(p, level, i)
      requires pages[t].Table? && |pages[t].ptes| == ENTRIES
      modifies this
      ensures Inv(S()) && Bare(S(), p) && Torn(s, S(), p, t) && t < |pages| && own[t] == Doomed(p, level, i + 1)
      ensures pages[t].Table? && |pages[t].ptes| == ENTRIES && |free| >= |old(free)|
      decreases level, 0
    {
      var e := pages[t].ptes[i];
      ghost var s1 := S();
      assert PageOk(s1, t) && ChildOk(s1, t, i, p, level);
      if e.v && !Leaf(e.perm) {
        PassedKeeps(s1, t, e.ppn);
        PassedBare(s1, t, e.ppn);
        own := own[t := Doomed(p, level, i + 1)][e.ppn := Doomed(p, level - 1, 0)];
        Freewalk(p, e.ppn, level - 1);
        TornNext(s, s1, S(), p, t, e.ppn);
        WipedTorn(s, S(), p, t, i);
        pages := pages[t := Table(pages[t].ptes[i := ZERO])];
      } else {
        assert !e.v;   // "freewalk: leaf" is not reached
        PassedKeeps(s1, t, -1);
        PassedBare(s1, t, -1);
        own := own[t := Doomed(p, level, i + 1)];
        TornSelf(s, s1, S(), p, t);
      }
    }

    /** Frees table `t` and all tables below it. */
    method Freewalk(ghost p: nat, t: nat, ghost level: nat)
      requires Inv(S()) && Bare(S(), p) && t < |pages| && own[t] == Doomed(p, level, 0)
      modifies this
      ensures Inv(S()) && Bare(S(), p) && Torn(old(S()), S(), p, t) && own[t].Free? && |free| >= |old(free)|
      decreases level, 1
    {
      ghost var s := S();
      assert PageOk(s, t);
      TornNone(s, p, t);
      var i := 0;
      while i < 512
        invariant 0 <= i <= 512 && Inv(S()) && Bare(S(), p) && Torn(s, S(), p, t) && t < |pages| && own[t] == Doomed(p, level, i)
        invariant pages[t].Table? && |pages[t].ptes| == ENTRIES && |free| >= |old(free)|
      {
        FreeEntry(s, p, t, i, level);
        i := i + 1;
      }
      ghost var s1 := S();
      var bad := Kfree(t);
      TornSelf(s, s1, S(), p, t);
    }

    /** Frees the first `sz` bytes' pages, which are all there is, and the tables. */
    method Uvmfree(ghost p: nat, pt: nat, sz: nat)
      requires Inv(S()) && NoDoomed(S()) && p in roots && roots[p] == pt && Up(sz) <= MAXPAGES
      requires forall x: nat :: if x < Up(sz) then Owned(S(), p, x) else !Tr(S(), p, x).v
      modifies this
      ensures SpaceGone(old(S()), S(), p)
    {
      ghost var s := S();
      if sz > 0 {
        Uvmunmap(p, pt, 0, Up(sz), true);
      } else {
        GoneNone(s, p, 0, true);
      }
      ghost var s1 := S();
      assert RootOk(s1, p) && forall x: nat :: !Tr(s1, p, x).v;
      NoneLeft(s, s1, p, Up(sz));
      own, roots := own[pt := Doomed(p, 2, 0)], roots - {p};
      Freewalk(p, pt, 2);
      SpaceEnds(s, s1, S(), p, Up(sz));
    }

    /** A new root with nothing mapped, or -1. */
    method Uvmcreate(ghost p: nat) returns (pt: int)
      requires Inv(S()) && p !in roots
      modifies this
      ensures Inv(S())
      ensures pt < 0 ==> pt == -1 && old(free) == [] && S() == old(S())
      ensures pt >= 0 ==> p in roots && roots[p] == pt && Started(old(S()), S(), p)
      ensures pt >= 0 ==> |old(free)| == |free| + 1
    {
      ghost var s := S();
      pt := Kalloc(p);
      if pt < 0 { return; }
      TakenKeeps(s, p);
      RootedKeeps(S(), p, pt);
      StartedRoot(s, p);
      pages := pages[pt := Zeros()];
      own, roots := own[pt := Root(p)], roots[p := pt];
    }
  }

  lemma GoneOwned(s: State, s1: State, p: nat, v: nat, n: nat, give: bool)
    requires Inv(s) && Inv(s1) && Gone(s, s1, p, v, n, give)
    requires if give then Owned(s, p, v + n) else NoFrame(s, p, v + n)
    ensures if give then Owned(s1, p, v + n) else NoFrame(s1, p, v + n)
  {
    var x := v + n;
    assert Tr(s1, p, x) == Tr(s, p, x);
    if give {
      if Tr(s, p, x).v { assert GoneAt(s, s1, p, v, n, give, Tr(s, p, x).ppn); }
    } else {
      forall q | 0 <= q < |s1.own| ensures s1.own[q] != Frame(p, x) { assert GoneAt(s, s1, p, v, n, give, q); }
    }
  }

  /** With nothing mapped, the root may be doomed: no leaf is left anywhere. */
  lemma NoneLeft(s: State, s1: State, p: nat, n: nat)
    requires Inv(s1) && NoDoomed(s) && Gone(s, s1, p, 0, n, true) && p in s1.roots && forall x: nat :: !Tr(s1, p, x).v
    ensures s1.roots[p] < |s1.own| && Inv(DoomedRoot(s1, p)) && Bare(DoomedRoot(s1, p), p)
  {
    assert RootOk(s1, p);
    forall q | 0 <= q < |s1.own| ensures !s1.own[q].Doomed? { assert GoneAt(s, s1, p, 0, n, true, q); }
    BareSpace(s1, p);
    DoomedRootKeeps(s1, p);
  }

  /** A space with a root and tables only: nothing is mapped. */
  ghost predicate Started(s: State, s': State, p: nat) {
    && Only(s, s', p) && (forall x: nat {:trigger Tr(s', p, x)} :: !Tr(s', p, x).v)
    && forall q {:trigger s'.own[q]} :: 0 <= q < |s.own| ==> StartedAt(s, s', p, q)
  }

  ghost predicate StartedAt(s: State, s': State, p: nat, q: nat)
    requires q < |s.own| == |s.pages| == |s'.own| == |s'.pages|
  {
    && (!s.own[q].Free? ==> s'.own[q] == s.own[q] && s'.pages[q] == s.pages[q])
    && (s.own[q].Free? && !s'.own[q].Free? ==> IsTableOf(s'.own[q], p))
  }

  lemma StartedRoot(s: State, p: nat)
    requires Inv(s) && p !in s.roots && s.free != [] && s.free[|s.free| - 1] < |s.pages|
    ensures Started(s, Rooted(Taken(s, p), p, s.free[|s.free| - 1]), p)
  {
    TakenKeeps(s, p);
    var q := s.free[|s.free| - 1];
    var s1, s2 := Taken(s, p), Rooted(Taken(s, p), p, q);
    forall x: nat ensures !Tr(s2, p, x).v { RootedTr(s1, p, q, p, x); }
    forall x: nat | x < |s.own| ensures StartedAt(s, s2, p, x) && OnlyAt(s, s2, p, x) { }
    assert s2.roots - {p} == s.roots - {p};
  }
}
