/**
 User memory on top of the page tables: what a space gains when pages are
 mapped, and what the user sees.  A page below the size that is not mapped is
 seen as zeros, because a fault will map a zeroed page there.
 */
module UserMemory {

  import opened Common
  import opened PageTable

  const USER: Perm := Perm(true, true, false, true)

  function ZeroPage(): seq<byte> { Filled(0).data }

  function Up(sz: nat): nat { (sz + PGSIZE - 1) / PGSIZE }

  predicate SameEntry(e: Pte, e': Pte) { e == e' || (!e.v && !e'.v) }

  // ------------------------------------------------------------------ gaining

  /** Free pages became tables of `p` or its memory at pages `lo` to `hi`; nothing outside that range changed. */
  ghost predicate Gained(s: State, s': State, p: nat, lo: nat, hi: nat) {
    && |s.own| == |s.pages| == |s'.own| == |s'.pages| && s'.roots == s.roots
    && (forall q {:trigger s'.own[q]} :: 0 <= q < |s.own| ==> GainedAt(s, s', p, lo, hi, q))
    && (forall x: nat {:trigger Tr(s', p, x)} :: if lo <= x < hi then Owned(s', p, x) else SameEntry(Tr(s, p, x), Tr(s', p, x)))
  }

  ghost predicate GainedAt(s: State, s': State, p: nat, lo: nat, hi: nat, q: nat)
    requires q < |s.own| == |s.pages| == |s'.own| == |s'.pages|
  {
    && (s.own[q].Free? ==>
          || s'.own[q].Free? || (s'.own[q].Node? && s'.own[q].p == p)
          || InRange(s'.own[q], p, lo, hi))
    && (!s.own[q].Free? ==> s'.own[q] == s.own[q])
    && (!s.own[q].Free? && !IsTableOf(s.own[q], p) && !InRange(s.own[q], p, lo, hi) ==> s'.pages[q] == s.pages[q])
  }

  predicate InRange(r: Role, p: nat, lo: nat, hi: nat) { r.Frame? && r.p == p && lo <= r.v < hi }

  lemma GainedNone(s: State, p: nat, lo: nat)
    requires |s.own| == |s.pages|
    ensures Gained(s, s, p, lo, lo)
  {
    forall q | 0 <= q < |s.own| ensures GainedAt(s, s, p, lo, lo, q) { }
  }

  lemma GainedOnly(s: State, s': State, p: nat, lo: nat, hi: nat)
    requires Gained(s, s', p, lo, hi)
    ensures Only(s, s', p)
  {
    forall q | 0 <= q < |s.own| ensures OnlyAt(s, s', p, q) { assert GainedAt(s, s', p, lo, hi, q); }
  }

  /** Memory outside the range is as it was. */
  lemma GainedView(s: State, s': State, p: nat, lo: nat, hi: nat, x: nat)
    requires Gained(s, s', p, lo, hi) && Owned(s, p, x) && !(lo <= x < hi)
    ensures Owned(s', p, x) && ViewOf(s', p, x) == ViewOf(s, p, x)
  {
    assert SameEntry(Tr(s, p, x), Tr(s', p, x));
    if Tr(s, p, x).v { assert GainedAt(s, s', p, lo, hi, Tr(s, p, x).ppn); }
  }

  lemma GainedTrans(s: State, s1: State, s2: State, p: nat, lo: nat, m: nat, hi: nat)
    requires Gained(s, s1, p, lo, m) && Gained(s1, s2, p, m, hi) && lo <= m <= hi
    ensures Gained(s, s2, p, lo, hi)
  {
    forall q | 0 <= q < |s.own| ensures GainedAt(s, s2, p, lo, hi, q) {
      assert GainedAt(s, s1, p, lo, m, q) && GainedAt(s1, s2, p, m, hi, q);
    }
    forall x: nat ensures if lo <= x < hi then Owned(s2, p, x) else SameEntry(Tr(s, p, x), Tr(s2, p, x)) {
      assert if lo <= x < m then Owned(s1, p, x) else SameEntry(Tr(s, p, x), Tr(s1, p, x));
      assert if m <= x < hi then Owned(s2, p, x) else SameEntry(Tr(s1, p, x), Tr(s2, p, x));
      if lo <= x < m { GainedView(s1, s2, p, m, hi, x); }
    }
  }

  lemma GainedTwice(s: State, s1: State, s2: State, p: nat, lo: nat, hi: nat)
    requires Gained(s, s1, p, lo, hi) && Gained(s1, s2, p, lo, hi)
    ensures Gained(s, s2, p, lo, hi)
  {
    forall q | 0 <= q < |s.own| ensures GainedAt(s, s2, p, lo, hi, q) {
      assert GainedAt(s, s1, p, lo, hi, q) && GainedAt(s1, s2, p, lo, hi, q);
    }
    forall x: nat ensures if lo <= x < hi then Owned(s2, p, x) else SameEntry(Tr(s, p, x), Tr(s2, p, x)) {
      assert if lo <= x < hi then Owned(s1, p, x) else SameEntry(Tr(s, p, x), Tr(s1, p, x));
      assert if lo <= x < hi then Owned(s2, p, x) else SameEntry(Tr(s1, p, x), Tr(s2, p, x));
    }
  }

  lemma GainedWiden(s: State, s': State, p: nat, lo: nat, hi: nat, lo': nat, hi': nat)
    requires Gained(s, s', p, lo, hi) && lo' <= lo <= hi <= hi'
    requires forall x: nat :: lo' <= x < hi' ==> Owned(s', p, x)
    ensures Gained(s, s', p, lo', hi')
  {
    forall q | 0 <= q < |s.own| ensures GainedAt(s, s', p, lo', hi', q) { assert GainedAt(s, s', p, lo, hi, q); }
  }

  /** An unmapped page needs nothing. */
  lemma GainedSkip(s: State, s': State, p: nat, lo: nat, hi: nat)
    requires Gained(s, s', p, lo, hi) && lo <= hi && !Tr(s', p, hi).v
    ensures Gained(s, s', p, lo, hi + 1)
  {
    var hi1 := hi + 1;
    forall x: nat | lo <= x < hi1 ensures Owned(s', p, x) {
      assert if lo <= x < hi then Owned(s', p, x) else SameEntry(Tr(s, p, x), Tr(s', p, x));
    }
    GainedWiden(s, s', p, lo, hi, lo, hi1);
  }

  /** Unmapping the range gives back every page it held; only tables stay. */
  lemma GainedUndo(s: State, s1: State, s2: State, p: nat, lo: nat, hi: nat)
    requires Inv(s) && Gained(s, s1, p, lo, hi) && lo <= hi && Gone(s1, s2, p, lo, hi - lo, true)
    requires forall x :: lo <= x < hi ==> !Tr(s, p, x).v
    ensures Gained(s, s2, p, lo, lo)
  {
    forall q | 0 <= q < |s.own| ensures GainedAt(s, s2, p, lo, lo, q) {
      assert GainedAt(s, s1, p, lo, hi, q) && GoneAt(s1, s2, p, lo, hi - lo, true, q) && PageOk(s, q);
    }
    forall x: nat ensures SameEntry(Tr(s, p, x), Tr(s2, p, x)) {
      assert if lo <= x < lo + (hi - lo) then !Tr(s2, p, x).v else Tr(s2, p, x) == Tr(s1, p, x);
    }
  }

  /** A page taken and filled is in hand, and no translation has changed. */
  lemma TakenFilled(s: State, p: nat, data: seq<byte>, v: nat)
    requires Inv(s) && s.free != [] && |data| == PGSIZE
    ensures s.free[|s.free| - 1] < |s.pages|
    ensures var q, s1 := s.free[|s.free| - 1], Taken(s, p); var s2 := s1.(pages := s1.pages[q := Bytes(data)]);
      Inv(s2) && s2.own[q] == Hand(p) && Tr(s2, p, v) == Tr(s, p, v)
  {
    TakenKeeps(s, p);
    var q, s1 := s.free[|s.free| - 1], Taken(s, p);
    StoredKeeps(s1, q, Bytes(data));
    TrKept(s, s1, p, v);
    TrKept(s1, s1.(pages := s1.pages[q := Bytes(data)]), p, v);
  }

  /** A page taken, filled and mapped. */
  lemma GainedPage(s: State, s': State, p: nat, v: nat, perm: Perm, data: seq<byte>)
    requires Inv(s) && s.free != [] && !Tr(s, p, v).v && |data| == PGSIZE && s.free[|s.free| - 1] < |s.pages|
    requires var q := s.free[|s.free| - 1]; var s1 := Taken(s, p);
      Mapped(s1.(pages := s1.pages[q := Bytes(data)]), s', p, v, 1, q, perm, true)
    ensures Gained(s, s', p, v, v + 1) && ViewOf(s', p, v) == Page(perm, data)
  {
    TakenKeeps(s, p);
    var q, s1 := s.free[|s.free| - 1], Taken(s, p);
    var s2 := s1.(pages := s1.pages[q := Bytes(data)]);
    StoredKeeps(s1, q, Bytes(data));
    forall x: nat ensures Tr(s2, p, x) == Tr(s, p, x) { TrKept(s, s1, p, x); TrKept(s1, s2, p, x); }
    assert MappedAt(s2, s', p, v, 1, q, true, q);
    var v1 := v + 1;
    forall x: nat | x < |s.own| ensures GainedAt(s, s', p, v, v1, x) { assert MappedAt(s2, s', p, v, 1, q, true, x); }
  }

  /** A page taken and given back because its table could not be made. */
  lemma GainedTables(s: State, s1: State, p: nat, v: nat, perm: Perm, data: seq<byte>)
    requires Inv(s) && s.free != [] && |data| == PGSIZE && s.free[|s.free| - 1] < |s.pages| && Inv(s1)
    requires var q := s.free[|s.free| - 1]; var s0 := Taken(s, p);
      Mapped(s0.(pages := s0.pages[q := Bytes(data)]), s1, p, v, 0, q, perm, true)
    ensures var q := s.free[|s.free| - 1]; q < |s1.own| && s1.own[q] == Hand(p) && Gained(s, Freed(s1, q), p, v, v)
  {
    TakenKeeps(s, p);
    var q, s0 := s.free[|s.free| - 1], Taken(s, p);
    var s2 := s0.(pages := s0.pages[q := Bytes(data)]);
    StoredKeeps(s0, q, Bytes(data));
    assert MappedAt(s2, s1, p, v, 0, q, true, q);
    var s3 := Freed(s1, q);
    FreedKeeps(s1, q);
    forall x: nat ensures Tr(s3, p, x) == Tr(s, p, x) { TrKept(s, s0, p, x); TrKept(s0, s2, p, x); TrKept(s1, s3, p, x); }
    forall x: nat | x < |s.own| ensures GainedAt(s, s3, p, v, v, x) { assert MappedAt(s2, s1, p, v, 0, q, true, x); }
  }

  /** The range gained holds zeroed pages. */
  ghost predicate Zeroed(s: State, s': State, p: nat, lo: nat, hi: nat, perm: Perm) {
    Gained(s, s', p, lo, hi) && forall x: nat :: lo <= x < hi ==> ViewOf(s', p, x) == Page(perm, ZeroPage())
  }

  lemma ZeroedNext(s: State, s1: State, s2: State, p: nat, lo: nat, a: nat, perm: Perm)
    requires Zeroed(s, s1, p, lo, a, perm) && lo <= a && Gained(s1, s2, p, a, a + 1) && ViewOf(s2, p, a) == Page(perm, ZeroPage())
    ensures Zeroed(s, s2, p, lo, a + 1, perm)
  {
    GainedTrans(s, s1, s2, p, lo, a, a + 1);
    forall x: nat | lo <= x < a ensures ViewOf(s2, p, x) == Page(perm, ZeroPage()) {
      assert Owned(s1, p, x);
      GainedView(s1, s2, p, a, a + 1, x);
    }
  }

  /** The first `i` pages of `np` are those of `p`. */
  ghost predicate Twinned(s: State, s': State, p: nat, np: nat, i: nat) {
    Gained(s, s', np, 0, i) && forall x: nat :: x < i ==> ViewOf(s', np, x) == ViewOf(s, p, x)
  }

  lemma TwinnedNext(s: State, s1: State, s2: State, p: nat, np: nat, i: nat)
    requires Twinned(s, s1, p, np, i) && Gained(s1, s2, np, i, i + 1) && ViewOf(s2, np, i) == ViewOf(s, p, i)
    ensures Twinned(s, s2, p, np, i + 1)
  {
    GainedTrans(s, s1, s2, np, 0, i, i + 1);
    forall x: nat | x < i ensures ViewOf(s2, np, x) == ViewOf(s, p, x) {
      assert Owned(s1, np, x);
      GainedView(s1, s2, np, i, i + 1, x);
    }
  }

  // --------------------------------------------------------- what the user sees

  /** Virtual page `x` of a space of `n` pages, as a program sees it. */
  function Seen(s: State, p: nat, n: nat, x: nat): View {
    if ViewOf(s, p, x) == Hole && x < n then Page(USER, ZeroPage()) else ViewOf(s, p, x)
  }

  function ByteOf(w: View, i: nat): byte {
    if w.Page? && i < |w.data| then w.data[i] else 0
  }

  function ByteAt(s: State, p: nat, n: nat, a: nat): byte { ByteOf(Seen(s, p, n, a / PGSIZE), a % PGSIZE) }

  /** Whether a user page may be read, or written. */
  predicate Allows(w: View, write: bool) { w.Page? && w.perm.u && (write ==> w.perm.w) }

  predicate AboveUser(x: nat) { x == TRAPFRAME || x == TRAMPOLINE }

  /** Memory of `n` pages: what is mapped there is the space's own, and the rest is closed to the user. */
  ghost predicate SpaceOk(s: State, p: nat, n: nat) {
    && n <= TRAPFRAME
    && forall x: nat {:trigger Tr(s, p, x)} :: Tr(s, p, x).v ==> if x < n then Owned(s, p, x) else AboveUser(x) && !Tr(s, p, x).perm.u
  }

  /** A fault that maps a zeroed page is not seen. */
  lemma FaultSeen(s: State, s': State, p: nat, n: nat, v: nat)
    requires SpaceOk(s, p, n) && v < n && Gained(s, s', p, v, v + 1) && !Tr(s, p, v).v && ViewOf(s', p, v) == Page(USER, ZeroPage())
    ensures SpaceOk(s', p, n) && Gained(s, s', p, 0, n) && (forall x: nat | x < n :: Seen(s', p, n, x) == Seen(s, p, n, x))
  {
    forall x: nat ensures Tr(s', p, x).v ==> if x < n then Owned(s', p, x) else AboveUser(x) && !Tr(s', p, x).perm.u {
      assert Tr(s, p, x).v ==> if x < n then Owned(s, p, x) else AboveUser(x) && !Tr(s, p, x).perm.u;
      assert if v <= x < v + 1 then Owned(s', p, x) else SameEntry(Tr(s, p, x), Tr(s', p, x));
      if x < n && x != v { GainedView(s, s', p, v, v + 1, x); }
    }
    GainedWiden(s, s', p, v, v + 1, 0, n);
    forall x: nat | x < n ensures Seen(s', p, n, x) == Seen(s, p, n, x) {
      if x != v { GainedView(s, s', p, v, v + 1, x); }
    }
  }

  /** A fault that only added tables, or nothing. */
  lemma TablesSeen(s: State, s': State, p: nat, n: nat, v: nat)
    requires SpaceOk(s, p, n) && Gained(s, s', p, v, v) && v < n
    ensures SpaceOk(s', p, n) && Gained(s, s', p, 0, n) && (forall x: nat | x < n :: Seen(s', p, n, x) == Seen(s, p, n, x))
  {
    forall x: nat ensures Tr(s', p, x).v ==> if x < n then Owned(s', p, x) else AboveUser(x) && !Tr(s', p, x).perm.u {
      assert Tr(s, p, x).v ==> if x < n then Owned(s, p, x) else AboveUser(x) && !Tr(s, p, x).perm.u;
      assert SameEntry(Tr(s, p, x), Tr(s', p, x));
      if x < n { GainedView(s, s', p, v, v, x); }
    }
    GainedWiden(s, s', p, v, v, 0, n);
    forall x: nat | x < n ensures Seen(s', p, n, x) == Seen(s, p, n, x) { GainedView(s, s', p, v, v, x); }
  }

  /** A store into one page is seen there and nowhere else. */
  lemma StoreSeen(s: State, p: nat, n: nat, v: nat, data: seq<byte>)
    requires Inv(s) && SpaceOk(s, p, n) && v < n && Tr(s, p, v).v && |data| == PGSIZE
    ensures 0 <= Tr(s, p, v).ppn < |s.pages|
    ensures var s' := s.(pages := s.pages[Tr(s, p, v).ppn := Bytes(data)]);
      && Inv(s') && SpaceOk(s', p, n) && Gained(s, s', p, 0, n)
      && (forall x: nat | x < n :: Seen(s', p, n, x) == if x == v then Page(Tr(s, p, v).perm, data) else Seen(s, p, n, x))
  {
    var q := Tr(s, p, v).ppn;
    var s' := s.(pages := s.pages[q := Bytes(data)]);
    StoredKeeps(s, q, Bytes(data));
    forall x: nat ensures Tr(s', p, x) == Tr(s, p, x) { TrKept(s, s', p, x); }
    forall x: nat | x < n ensures Owned(s', p, x) && Seen(s', p, n, x) == if x == v then Page(Tr(s, p, v).perm, data) else Seen(s, p, n, x) {
      assert Owned(s, p, x);
    }
    forall x: nat ensures Tr(s', p, x).v ==> if x < n then Owned(s', p, x) else AboveUser(x) && !Tr(s', p, x).perm.u {
      assert Tr(s', p, x) == Tr(s, p, x);
    }
    forall x: nat | x < |s.own| ensures GainedAt(s, s', p, 0, n, x) { }
  }

  function Spliced(data: seq<byte>, off: nat, chunk: seq<byte>): (r: seq<byte>)
    requires off + |chunk| <= |data|
    ensures |r| == |data|
    ensures forall i :: 0 <= i < |data| ==> r[i] == if off <= i < off + |chunk| then chunk[i - off] else data[i]
  {
    data[..off] + chunk + data[off + |chunk|..]
  }

  /** Part of one page replaced, byte by byte. */
  lemma StoreBytes(s: State, s': State, p: nat, n: nat, dst: nat, chunk: seq<byte>, a: nat)
    requires dst / PGSIZE < n && dst % PGSIZE + |chunk| <= PGSIZE && a / PGSIZE < n
    requires var w := Seen(s, p, n, dst / PGSIZE); w.Page? && |w.data| == PGSIZE
    requires var w := Seen(s, p, n, dst / PGSIZE);
      Seen(s', p, n, dst / PGSIZE) == Page(w.perm, Spliced(w.data, dst % PGSIZE, chunk))
    requires a / PGSIZE != dst / PGSIZE ==> Seen(s', p, n, a / PGSIZE) == Seen(s, p, n, a / PGSIZE)
    ensures ByteAt(s', p, n, a) == if dst <= a < dst + |chunk| then chunk[a - dst] else ByteAt(s, p, n, a)
  {
  }

  /** Everything the user sees is full pages. */
  lemma SeenPage(s: State, p: nat, n: nat, x: nat)
    requires Inv(s) && SpaceOk(s, p, n) && x < n
    ensures Seen(s, p, n, x).Page? && |Seen(s, p, n, x).data| == PGSIZE
  {
    if Tr(s, p, x).v { assert PageOk(s, Tr(s, p, x).ppn); }
  }

  lemma SameGained(s: State, p: nat, n: nat)
    requires |s.own| == |s.pages| && SpaceOk(s, p, n)
    ensures Gained(s, s, p, 0, n)
  {
    forall q | 0 <= q < |s.own| ensures GainedAt(s, s, p, 0, n, q) { }
    forall x: nat ensures if 0 <= x < n then Owned(s, p, x) else SameEntry(Tr(s, p, x), Tr(s, p, x)) { }
  }

  /** Beyond the size nothing is readable. */
  lemma SeenBeyond(s: State, p: nat, n: nat, x: nat)
    requires SpaceOk(s, p, n) && x >= n
    ensures !Allows(Seen(s, p, n, x), false)
  {
    assert Tr(s, p, x).v ==> if x < n then Owned(s, p, x) else AboveUser(x) && !Tr(s, p, x).perm.u;
  }

  /** A page the user may touch and that is mapped is a full page of its own. */
  lemma MappedUser(s: State, p: nat, n: nat, v: nat)
    requires Inv(s) && SpaceOk(s, p, n)
    ensures Tr(s, p, v).v && Tr(s, p, v).perm.u ==> v < n && 0 <= Tr(s, p, v).ppn < |s.pages| && IsData(s.pages[Tr(s, p, v).ppn])
    ensures Allows(Seen(s, p, n, v), false) <==> if Tr(s, p, v).v then Tr(s, p, v).perm.u else v < n
  {
    assert Tr(s, p, v).v ==> if v < n then Owned(s, p, v) else AboveUser(v) && !Tr(s, p, v).perm.u;
    if Tr(s, p, v).v && v < n { assert PageOk(s, Tr(s, p, v).ppn); }
  }

  /** `dst` is what the user sees from `va` on. */
  ghost predicate Copied(s: State, p: nat, n: nat, va: nat, dst: seq<byte>) {
    forall i: nat :: i < |dst| ==> dst[i] == ByteAt(s, p, n, va + i)
  }

  /** The bytes of a page, from `src` on, are the next to copy. */
  lemma NextBytes(s: State, p: nat, n: nat, va: nat, dst: seq<byte>, m: nat, data: seq<byte>)
    requires var w := Seen(s, p, n, (va + |dst|) / PGSIZE); w.Page? && w.data == data
    requires |data| == PGSIZE && (va + |dst|) % PGSIZE + m <= PGSIZE && Copied(s, p, n, va, dst)
    ensures var off := (va + |dst|) % PGSIZE; Copied(s, p, n, va, dst + data[off..off + m])
  {
    var off := (va + |dst|) % PGSIZE;
    var dst' := dst + data[off..off + m];
    forall i: nat | i < |dst'| ensures dst'[i] == ByteAt(s, p, n, va + i) {
      if i >= |dst| {
        var a := va + i;
        assert a / PGSIZE == (va + |dst|) / PGSIZE && a % PGSIZE == off + (i - |dst|);
      }
    }
  }

  /** Every page of `len` bytes from `va` may be read, or written. */
  ghost predicate AllPages(s: State, p: nat, n: nat, va: nat, len: nat, write: bool) {
    forall v: nat {:trigger Seen(s, p, n, v)} :: va / PGSIZE <= v && v * PGSIZE < va + len && len > 0 ==> Allows(Seen(s, p, n, v), write)
  }

  /** A page of these bytes that may not be, or memory too short to map the pages up to it. */
  ghost predicate Stuck(s: State, p: nat, n: nat, va: nat, len: nat, write: bool, v: nat) {
    && va / PGSIZE <= v && v * PGSIZE < va + len
    && (!Allows(Seen(s, p, n, v), write) || |s.free| < 3 * (v - va / PGSIZE + 1))
  }

  /** A chunk within one page adds that page to those passed. */
  lemma OnePageMore(s: State, p: nat, n: nat, va: nat, done: nat, m: nat, write: bool)
    requires AllPages(s, p, n, va, done, write) && Allows(Seen(s, p, n, (va + done) / PGSIZE), write)
    requires (va + done) % PGSIZE + m <= PGSIZE && (done > 0 ==> (va + done) % PGSIZE == 0)
    ensures AllPages(s, p, n, va, done + m, write)
  {
  }

  /** Faults may have mapped pages, but the user sees what it saw. */
  ghost predicate Unseen(s: State, s': State, p: nat, n: nat) {
    && Inv(s') && SpaceOk(s', p, n) && Gained(s, s', p, 0, n)
    && forall x: nat {:trigger Seen(s', p, n, x)} :: x < n ==> Seen(s', p, n, x) == Seen(s, p, n, x)
  }

  lemma UnseenSame(s: State, p: nat, n: nat)
    requires Inv(s) && SpaceOk(s, p, n)
    ensures Unseen(s, s, p, n)
  {
    SameGained(s, p, n);
  }

  lemma UnseenTrans(s: State, s1: State, s2: State, p: nat, n: nat)
    requires Unseen(s, s1, p, n) && Unseen(s1, s2, p, n)
    ensures Unseen(s, s2, p, n)
  {
    GainedTwice(s, s1, s2, p, 0, n);
    forall x: nat | x < n ensures Seen(s2, p, n, x) == Seen(s, p, n, x) { assert Seen(s1, p, n, x) == Seen(s, p, n, x); }
  }

  /** Faults change nobody's rights. */
  lemma UnseenAllows(s: State, s': State, p: nat, n: nat, v: nat, write: bool)
    requires SpaceOk(s, p, n) && Unseen(s, s', p, n)
    ensures Allows(Seen(s', p, n, v), write) <==> Allows(Seen(s, p, n, v), write)
  {
    if v >= n { SeenBeyond(s, p, n, v); SeenBeyond(s', p, n, v); }
  }

  /** The first `k` bytes of `src` are written at `va`; every other byte and all rights are as before. */
  ghost predicate Wrote(s: State, s': State, p: nat, n: nat, va: nat, src: seq<byte>, k: nat)
    requires k <= |src|
  {
    && Inv(s') && SpaceOk(s', p, n) && Gained(s, s', p, 0, n)
    && (forall x: nat {:trigger Seen(s', p, n, x)} :: x < n ==> SameRights(Seen(s, p, n, x), Seen(s', p, n, x)))
    && (forall a: nat {:trigger ByteAt(s', p, n, a)} :: a / PGSIZE < n ==>
          ByteAt(s', p, n, a) == if va <= a < va + k then src[a - va] else ByteAt(s, p, n, a))
  }

  predicate SameRights(w: View, w': View) { w.Page? && w'.Page? && w'.perm == w.perm }

  lemma WroteNone(s: State, p: nat, n: nat, va: nat, src: seq<byte>)
    requires Inv(s) && SpaceOk(s, p, n)
    ensures Wrote(s, s, p, n, va, src, 0)
  {
    SameGained(s, p, n);
    forall x: nat | x < n ensures Seen(s, p, n, x).Page? { SeenPage(s, p, n, x); }
  }

  lemma WroteUnseen(s: State, s1: State, s2: State, p: nat, n: nat, va: nat, src: seq<byte>, k: nat)
    requires k <= |src| && Wrote(s, s1, p, n, va, src, k) && Unseen(s1, s2, p, n)
    ensures Wrote(s, s2, p, n, va, src, k)
  {
    GainedTwice(s, s1, s2, p, 0, n);
    forall x: nat | x < n ensures SameRights(Seen(s, p, n, x), Seen(s2, p, n, x)) {
      assert Seen(s2, p, n, x) == Seen(s1, p, n, x) && SameRights(Seen(s, p, n, x), Seen(s1, p, n, x));
    }
    forall a: nat | a / PGSIZE < n ensures ByteAt(s2, p, n, a) == if va <= a < va + k then src[a - va] else ByteAt(s, p, n, a) {
      assert Seen(s2, p, n, a / PGSIZE) == Seen(s1, p, n, a / PGSIZE);
      assert ByteAt(s2, p, n, a) == ByteAt(s1, p, n, a);
    }
  }

  lemma WroteAllows(s: State, s': State, p: nat, n: nat, va: nat, src: seq<byte>, k: nat, v: nat, write: bool)
    requires SpaceOk(s, p, n) && k <= |src| && Wrote(s, s', p, n, va, src, k)
    ensures Allows(Seen(s', p, n, v), write) <==> Allows(Seen(s, p, n, v), write)
  {
    if v >= n { SeenBeyond(s, p, n, v); SeenBeyond(s', p, n, v); } else { assert SameRights(Seen(s, p, n, v), Seen(s', p, n, v)); }
  }

  /** The page at `va + k` with the next `m` bytes in it. */
  function Patched(s: State, p: nat, va: nat, src: seq<byte>, k: nat, m: nat): seq<byte>
    requires k + m <= |src| && (va + k) % PGSIZE + m <= |Data(s.pages, Tr(s, p, (va + k) / PGSIZE).ppn)|
  {
    Spliced(Data(s.pages, Tr(s, p, (va + k) / PGSIZE).ppn), (va + k) % PGSIZE, src[k..k + m])
  }

  /** The byte half of a store at `d`: the next bytes stand, and byte `a`, `was` at the start, is as it was if it is not theirs. */
  lemma WroteByte(s1: State, s2: State, p: nat, n: nat, va: nat, src: seq<byte>, k: nat, m: nat, d: nat, a: nat, was: byte)
    requires k + m <= |src| && d == va + k && d / PGSIZE < n && a / PGSIZE < n && d % PGSIZE + m <= PGSIZE
    requires ByteAt(s1, p, n, a) == if va <= a < d then src[a - va] else was
    requires var w := Seen(s1, p, n, d / PGSIZE);
      && w.Page? && |w.data| == PGSIZE
      && Seen(s2, p, n, d / PGSIZE) == Page(w.perm, Spliced(w.data, d % PGSIZE, src[k..k + m]))
    requires a / PGSIZE != d / PGSIZE ==> Seen(s2, p, n, a / PGSIZE) == Seen(s1, p, n, a / PGSIZE)
    ensures ByteAt(s2, p, n, a) == if va <= a < d + m then src[a - va] else was
  {
    StoreBytes(s1, s2, p, n, d, src[k..k + m], a);
  }

  /** Page `v` of what is seen became `w`, and no other page changed. */
  ghost predicate Became(s: State, s': State, p: nat, n: nat, v: nat, w: View) {
    forall x: nat {:trigger Seen(s', p, n, x)} :: x < n ==> Seen(s', p, n, x) == if x == v then w else Seen(s, p, n, x)
  }

  lemma WroteRights(s: State, s1: State, s2: State, p: nat, n: nat, va: nat, src: seq<byte>, k: nat, v: nat, w: View, x: nat)
    requires k <= |src| && Wrote(s, s1, p, n, va, src, k) && Became(s1, s2, p, n, v, w) && v < n && x < n
    requires SameRights(Seen(s1, p, n, v), w)
    ensures SameRights(Seen(s, p, n, x), Seen(s2, p, n, x))
  {
    assert SameRights(Seen(s, p, n, x), Seen(s1, p, n, x));
  }

  lemma WroteBytes(s: State, s1: State, s2: State, p: nat, n: nat, va: nat, src: seq<byte>, k: nat, m: nat, w: View, a: nat)
    requires k + m <= |src| && Wrote(s, s1, p, n, va, src, k) && (va + k) / PGSIZE < n && a / PGSIZE < n && (va + k) % PGSIZE + m <= PGSIZE
    requires w == Seen(s1, p, n, (va + k) / PGSIZE) && w.Page? && |w.data| == PGSIZE
    requires Became(s1, s2, p, n, (va + k) / PGSIZE, Page(w.perm, Spliced(w.data, (va + k) % PGSIZE, src[k..k + m])))
    ensures ByteAt(s2, p, n, a) == if va <= a < va + k + m then src[a - va] else ByteAt(s, p, n, a)
  {
    assert ByteAt(s1, p, n, a) == if va <= a < va + k then src[a - va] else ByteAt(s, p, n, a);
    WroteByte(s1, s2, p, n, va, src, k, m, va + k, a, ByteAt(s, p, n, a));
  }

  /** One page of a `copyout`, once the store is made. */
  lemma WroteMore(s: State, s1: State, s2: State, p: nat, n: nat, va: nat, src: seq<byte>, k: nat, m: nat, w: View)
    requires k + m <= |src| && Wrote(s, s1, p, n, va, src, k) && (va + k) / PGSIZE < n && (va + k) % PGSIZE + m <= PGSIZE
    requires Inv(s2) && SpaceOk(s2, p, n) && Gained(s1, s2, p, 0, n)
    requires w == Seen(s1, p, n, (va + k) / PGSIZE) && w.Page? && |w.data| == PGSIZE
    requires Became(s1, s2, p, n, (va + k) / PGSIZE, Page(w.perm, Spliced(w.data, (va + k) % PGSIZE, src[k..k + m])))
    ensures Wrote(s, s2, p, n, va, src, k + m)
  {
    GainedTwice(s, s1, s2, p, 0, n);
    var v, w', k1 := (va + k) / PGSIZE, Page(w.perm, Spliced(w.data, (va + k) % PGSIZE, src[k..k + m])), k + m;
    forall x: nat | x < n ensures SameRights(Seen(s, p, n, x), Seen(s2, p, n, x)) {
      WroteRights(s, s1, s2, p, n, va, src, k, v, w', x);
    }
    forall a: nat | a / PGSIZE < n ensures ByteAt(s2, p, n, a) == if va <= a < va + k1 then src[a - va] else ByteAt(s, p, n, a) {
      WroteBytes(s, s1, s2, p, n, va, src, k, m, w, a);
    }
  }

  lemma WroteNext(s: State, s1: State, p: nat, n: nat, va: nat, src: seq<byte>, k: nat, m: nat)
    requires k + m <= |src| && Wrote(s, s1, p, n, va, src, k) && (va + k) / PGSIZE < n && Tr(s1, p, (va + k) / PGSIZE).v
    requires |Data(s1.pages, Tr(s1, p, (va + k) / PGSIZE).ppn)| == PGSIZE && (va + k) % PGSIZE + m <= PGSIZE
    ensures var q := Tr(s1, p, (va + k) / PGSIZE).ppn;
      0 <= q < |s1.pages| && Wrote(s, s1.(pages := s1.pages[q := Bytes(Patched(s1, p, va, src, k, m))]), p, n, va, src, k + m)
  {
    var v, q, data := (va + k) / PGSIZE, Tr(s1, p, (va + k) / PGSIZE).ppn, Patched(s1, p, va, src, k, m);
    StoreSeen(s1, p, n, v, data);
    WroteMore(s, s1, s1.(pages := s1.pages[q := Bytes(data)]), p, n, va, src, k, m, Seen(s1, p, n, v));
  }

  /** How many bytes of a request for `rest` bytes lie in the page of `a`. */
  function Chunk(a: nat, rest: nat): (m: nat)
    ensures m <= rest && a % PGSIZE + m <= PGSIZE && (rest > 0 ==> m > 0)
    ensures m == rest || a + m == (a / PGSIZE + 1) * PGSIZE
  {
    if PGSIZE - a % PGSIZE < rest then PGSIZE - a % PGSIZE else rest
  }

  /** A copy of `len` bytes from `va` that has got as far as `dst`. */
  ghost predicate Copying(s: State, s1: State, p: nat, n: nat, va: nat, len: nat, dst: seq<byte>) {
    && |dst| <= len && (0 < |dst| < len ==> (va + |dst|) % PGSIZE == 0)
    && SpaceOk(s, p, n) && Unseen(s, s1, p, n) && Copied(s, p, n, va, dst) && AllPages(s, p, n, va, |dst|, false)
    && (|dst| < len ==> |s.free| <= |s1.free| + 3 * ((va + |dst|) / PGSIZE - va / PGSIZE))
  }

  /** The bytes of page `w` from `a` to its end, at most `rest` of them. */
  function Piece(w: View, a: nat, rest: nat): (r: seq<byte>)
    requires w.Page? && |w.data| == PGSIZE
    ensures |r| == Chunk(a, rest)
  {
    w.data[a % PGSIZE..a % PGSIZE + Chunk(a, rest)]
  }

  /** What may be read lies below the size. */
  lemma SeenBelow(s: State, p: nat, n: nat, x: nat)
    requires SpaceOk(s, p, n) && Allows(Seen(s, p, n, x), false)
    ensures x < n
  {
    if x >= n { SeenBeyond(s, p, n, x); }
  }

  /** One page more of what is seen from `va` on. */
  lemma CopiedPiece(s: State, p: nat, n: nat, va: nat, dst: seq<byte>, a: nat, w: View, rest: nat)
    requires a == va + |dst| && w == Seen(s, p, n, a / PGSIZE) && Allows(w, false) && |w.data| == PGSIZE
    requires Copied(s, p, n, va, dst) && AllPages(s, p, n, va, |dst|, false) && (dst != [] ==> a % PGSIZE == 0)
    ensures var more := Piece(w, a, rest); Copied(s, p, n, va, dst + more) && AllPages(s, p, n, va, |dst| + |more|, false)
  {
    var m := Chunk(a, rest);
    NextBytes(s, p, n, va, dst, m, w.data);
    OnePageMore(s, p, n, va, |dst|, m, false);
  }

  lemma CopyingNext(s: State, s1: State, s2: State, p: nat, n: nat, va: nat, len: nat, dst: seq<byte>, w: View)
    requires Copying(s, s1, p, n, va, len, dst) && |dst| < len && Unseen(s1, s2, p, n) && |s1.free| <= |s2.free| + 3
    requires w == Seen(s1, p, n, (va + |dst|) / PGSIZE) && Allows(w, false) && |w.data| == PGSIZE
    ensures var more := Piece(w, va + |dst|, len - |dst|); more != [] && Copying(s, s2, p, n, va, len, dst + more)
  {
    var a, rest := va + |dst|, len - |dst|;
    SeenBelow(s1, p, n, a / PGSIZE);
    CopiedPiece(s, p, n, va, dst, a, w, rest);
    UnseenTrans(s, s1, s2, p, n);
    NextPage(a, Chunk(a, rest), rest);
  }

  lemma NextPage(a: nat, m: nat, rest: nat)
    requires m == Chunk(a, rest) && rest > 0
    ensures m < rest ==> (a + m) % PGSIZE == 0 && (a + m) / PGSIZE == a / PGSIZE + 1
  {
  }

  /** A page that cannot be had stops the copy. */
  lemma CopyingStuck(s: State, s1: State, p: nat, n: nat, va: nat, len: nat, dst: seq<byte>)
    requires Copying(s, s1, p, n, va, len, dst) && |dst| < len
    requires !Allows(Seen(s1, p, n, (va + |dst|) / PGSIZE), false) || |s1.free| < 3
    ensures Stuck(s, p, n, va, len, false, (va + |dst|) / PGSIZE)
  {
    UnseenAllows(s, s1, p, n, (va + |dst|) / PGSIZE, false);
  }

  /** A turn of a copy: a page more, or stuck. */
  lemma CopyingTurn(s: State, s1: State, s2: State, p: nat, n: nat, va: nat, len: nat, dst: seq<byte>, ok: bool)
    requires Copying(s, s1, p, n, va, len, dst) && |dst| < len && Unseen(s1, s2, p, n) && |s1.free| <= |s2.free| + 3
    requires var w := Seen(s1, p, n, (va + |dst|) / PGSIZE);
      if ok then Allows(w, false) && |w.data| == PGSIZE else !Allows(w, false) || |s1.free| < 3
    ensures Unseen(s, s2, p, n)
    ensures ok ==> var more := Piece(Seen(s1, p, n, (va + |dst|) / PGSIZE), va + |dst|, len - |dst|);
      more != [] && Copying(s, s2, p, n, va, len, dst + more)
    ensures !ok ==> Stuck(s, p, n, va, len, false, (va + |dst|) / PGSIZE)
  {
    UnseenTrans(s, s1, s2, p, n);
    if ok {
      CopyingNext(s, s1, s2, p, n, va, len, dst, Seen(s1, p, n, (va + |dst|) / PGSIZE));
    } else {
      CopyingStuck(s, s1, p, n, va, len, dst);
    }
  }
}
