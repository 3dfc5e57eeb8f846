/**
 Physical pages and three-level page tables (kalloc.c, vm.c).  A managed page is
 a number below `|pages|`; it holds bytes or 512 page-table entries.  The ghost
 `own` gives every page its one holder: a place on the free list, the kernel's
 hand, the root of an address space, an entry of a page-table page, or a page of
 user memory.  Address spaces are numbered by the process slot they belong to.
 */
module PageTable {

  import opened Common

  const PGSIZE: nat := 4096
  const ENTRIES: nat := 512
  const MAXPAGES: nat := 0x400_0000     // MAXVA / PGSIZE
  const TRAMPOLINE: nat := MAXPAGES - 1
  const TRAPFRAME: nat := MAXPAGES - 2
  const TRAMPOLINE_PPN: int := -1       // kernel text lies below the managed pages

  datatype Perm = Perm(r: bool, w: bool, x: bool, u: bool)

  datatype Pte = Pte(v: bool, ppn: int, perm: Perm)

  const NOPERM: Perm := Perm(false, false, false, false)
  const ZERO: Pte := Pte(false, 0, NOPERM)

  predicate Leaf(perm: Perm) { perm.r || perm.w || perm.x }

  datatype Contents = Table(ptes: seq<Pte>) | Bytes(data: seq<byte>)

  function Filled(b: byte): (c: Contents)
    ensures c.Bytes? && |c.data| == PGSIZE && forall i :: 0 <= i < PGSIZE ==> c.data[i] == b
  {
    Bytes(seq(PGSIZE, i => b))
  }

  function Zeros(): (c: Contents)
    ensures c.Table? && |c.ptes| == ENTRIES && forall i :: 0 <= i < ENTRIES ==> c.ptes[i] == ZERO
  {
    Table(seq(ENTRIES, i => ZERO))
  }

  /** The holder of a page. */
  datatype Role =
    | Free(k: nat)                                  // entry k of the free list
    | Hand(p: nat)                                  // taken for p, in no table
    | Root(p: nat)
    | Node(p: nat, level: nat, t: nat, idx: nat)    // table of this level, held by entry idx of table t
    | Frame(p: nat, v: nat)                         // user memory of p, virtual page v
    | Doomed(p: nat, level: nat, from: nat)         // table being torn down, entries below `from` done

  datatype State = State(free: seq<nat>, pages: seq<Contents>, own: seq<Role>, roots: map<nat, nat>)

  // ------------------------------------------------------------- translation

  function At(pages: seq<Contents>, t: int, i: nat): Pte {
    if 0 <= t < |pages| && pages[t].Table? && i < |pages[t].ptes| then pages[t].ptes[i] else ZERO
  }

  function Step(pages: seq<Contents>, t: int, i: nat): int {
    if At(pages, t, i).v then At(pages, t, i).ppn else -1
  }

  function Top(s: State, p: nat): int { if p in s.roots then s.roots[p] else -1 }

  function Mid(s: State, p: nat, v: nat): int { Step(s.pages, Top(s, p), v / 0x4_0000) }

  function Bottom(s: State, p: nat, v: nat): int { Step(s.pages, Mid(s, p, v), v / 512 % 512) }

  /** The entry that translates virtual page `v` of space `p`. */
  function Tr(s: State, p: nat, v: nat): Pte { At(s.pages, Bottom(s, p, v), v % 512) }

  // --------------------------------------------------------------- invariant

  predicate IsNode(r: Role, p: nat, l: nat) {
    match r
    case Root(p') => p' == p && l == 2
    case Node(p', l', _, _) => p' == p && l' == l
    case Doomed(p', l', _) => p' == p && l' == l
    case _ => false
  }

  function From(r: Role): nat { if r.Doomed? then r.from else 0 }

  ghost predicate ChildOk(s: State, t: nat, i: nat, p: nat, l: nat)
    requires t < |s.pages| == |s.own|
  {
    var e := At(s.pages, t, i);
    e.v ==> if l == 0 then Leaf(e.perm) else !Leaf(e.perm) && 0 <= e.ppn < |s.pages| && s.own[e.ppn] == Node(p, l - 1, t, i)
  }

  ghost predicate TableOk(s: State, t: nat, p: nat, l: nat, from: nat)
    requires t < |s.pages| == |s.own|
  {
    && s.pages[t].Table? && |s.pages[t].ptes| == ENTRIES
    && forall i {:trigger ChildOk(s, t, i, p, l)} :: from <= i < ENTRIES ==> ChildOk(s, t, i, p, l)
  }

  predicate IsData(c: Contents) { c.Bytes? && |c.data| == PGSIZE }

  ghost predicate PageOk(s: State, q: nat)
    requires |s.pages| == |s.own|
  {
    q < |s.pages| ==>
      match s.own[q]
      case Free(k) => k < |s.free| && s.free[k] == q
      case Hand(_) => IsData(s.pages[q])
      case Root(p) => p in s.roots && s.roots[p] == q && TableOk(s, q, p, 2, 0)
      case Node(p, l, t, i) =>
        && l < 2 && t < |s.pages| && i < ENTRIES && IsNode(s.own[t], p, l + 1) && From(s.own[t]) <= i
        && Step(s.pages, t, i) == q && TableOk(s, q, p, l, 0)
      case Frame(p, v) => Tr(s, p, v).v && Tr(s, p, v).ppn == q && IsData(s.pages[q])
      case Doomed(p, l, from) => l <= 2 && from <= ENTRIES && TableOk(s, q, p, l, from)
  }

  ghost predicate RootOk(s: State, p: nat)
    requires |s.pages| == |s.own|
  {
    p in s.roots ==> s.roots[p] < |s.pages| && s.own[s.roots[p]] == Root(p)
  }

  ghost predicate FreeOk(s: State, k: nat)
    requires |s.pages| == |s.own|
  {
    k < |s.free| ==> s.free[k] < |s.pages| && s.own[s.free[k]] == Free(k)
  }

  ghost predicate Inv(s: State) {
    && |s.pages| == |s.own|
    && (forall q {:trigger PageOk(s, q)} :: PageOk(s, q))
    && (forall p {:trigger RootOk(s, p)} :: RootOk(s, p))
    && (forall k {:trigger FreeOk(s, k)} :: FreeOk(s, k))
  }

  // ------------------------------------------------------------------- paths

  /** The tables a walk goes through are held by the tables above them. */
  lemma Path(s: State, p: nat, v: nat)
    requires Inv(s)
    ensures Top(s, p) >= 0 ==> Top(s, p) < |s.pages| && s.own[Top(s, p)] == Root(p)
    ensures Mid(s, p, v) >= 0 ==> Top(s, p) >= 0 && Mid(s, p, v) < |s.pages| && s.own[Mid(s, p, v)] == Node(p, 1, Top(s, p), v / 0x4_0000)
    ensures Bottom(s, p, v) >= 0 ==> Mid(s, p, v) >= 0 && Bottom(s, p, v) < |s.pages| && s.own[Bottom(s, p, v)] == Node(p, 0, Mid(s, p, v), v / 512 % 512)
    ensures Tr(s, p, v).v ==> Bottom(s, p, v) >= 0 && Leaf(Tr(s, p, v).perm) && v < 512 * 512 * 512
  {
    assert RootOk(s, p);
    var t := Top(s, p);
    if t >= 0 {
      assert PageOk(s, t) && ChildOk(s, t, v / 0x4_0000, p, 2);
      var m := Mid(s, p, v);
      if m >= 0 {
        assert PageOk(s, m) && ChildOk(s, m, v / 512 % 512, p, 1);
        var b := Bottom(s, p, v);
        if b >= 0 { assert PageOk(s, b) && ChildOk(s, b, v % 512, p, 0); }
      }
    }
  }

  /** No two pages of virtual memory share a bottom entry. */
  lemma OnePath(s: State, p: nat, v: nat, p': nat, v': nat)
    requires Inv(s) && Bottom(s, p, v) >= 0 && Bottom(s, p, v) == Bottom(s, p', v')
    ensures p == p' && v / 512 == v' / 512
  {
    Path(s, p, v);
    Path(s, p', v');
    Split(v);
    Split(v');
  }

  lemma Split(v: nat)
    ensures v / 512 == v / 0x4_0000 * 512 + v / 512 % 512
  {
    assert v / 0x4_0000 == v / 512 / 512;
  }

  /** Page-table pages are as before. */
  ghost predicate SameTables(s: State, s': State) {
    && |s'.pages| == |s.pages| == |s.own| && s'.roots == s.roots
    && forall q :: 0 <= q < |s.pages| && (s.own[q].Root? || s.own[q].Node?) ==> s'.pages[q] == s.pages[q]
  }

  lemma TrKept(s: State, s': State, p: nat, v: nat)
    requires Inv(s) && SameTables(s, s')
    ensures Mid(s', p, v) == Mid(s, p, v) && Bottom(s', p, v) == Bottom(s, p, v) && Tr(s', p, v) == Tr(s, p, v)
  {
    Path(s, p, v);
  }

  // ------------------------------------------------------ kalloc and kfree

  function Taken(s: State, p: nat): State
    requires s.free != [] && s.free[|s.free| - 1] < |s.pages| == |s.own|
  {
    var q := s.free[|s.free| - 1];
    s.(free := s.free[..|s.free| - 1], pages := s.pages[q := Filled(5)], own := s.own[q := Hand(p)])
  }

  function Freed(s: State, q: nat): State
    requires q < |s.pages| == |s.own|
  {
    s.(free := s.free + [q], pages := s.pages[q := Filled(1)], own := s.own[q := Free(|s.free|)])
  }

  /** Who holds a page that may be freed: nobody points at it, or only a leaf entry about to be cleared. */
  predicate Freeable(r: Role) { r.Hand? || r.Frame? || (r.Doomed? && r.from == ENTRIES) }

  lemma TakenPage(s: State, p: nat, x: nat)
    requires Inv(s) && s.free != [] && s.free[|s.free| - 1] < |s.pages|
    ensures PageOk(Taken(s, p), x)
  {
    var s' := Taken(s, p);
    var q := s.free[|s.free| - 1];
    assert FreeOk(s, |s.free| - 1) && PageOk(s, x);
    if x < |s.pages| && x != q {
      match s.own[x] {
        case Frame(p', v) => TrKept(s, s', p', v);
        case Root(p') => NodeKept(s, s', x, p', 2, 0);
        case Node(p', l, _, _) => NodeKept(s, s', x, p', l, 0);
        case Doomed(p', l, from) => NodeKept(s, s', x, p', l, from);
        case _ =>
      }
    }
  }

  /** A table stays right if its page and the roles of the tables below it are kept. */
  lemma NodeKept(s: State, s': State, t: nat, p: nat, l: nat, from: nat)
    requires t < |s.pages| == |s.own| == |s'.pages| == |s'.own| && TableOk(s, t, p, l, from) && s'.pages[t] == s.pages[t]
    requires forall q :: 0 <= q < |s.own| && s.own[q].Node? && s.own[q].t == t && s.own[q].idx >= from ==> s'.own[q] == s.own[q]
    ensures TableOk(s', t, p, l, from)
  {
    forall i | from <= i < ENTRIES ensures ChildOk(s', t, i, p, l) { assert ChildOk(s, t, i, p, l); }
  }

  lemma TakenKeeps(s: State, p: nat)
    requires Inv(s) && s.free != []
    ensures s.free[|s.free| - 1] < |s.pages| && s.own[s.free[|s.free| - 1]] == Free(|s.free| - 1)
    ensures Inv(Taken(s, p)) && SameTables(s, Taken(s, p))
  {
    assert FreeOk(s, |s.free| - 1);
    var s' := Taken(s, p);
    forall x: nat ensures PageOk(s', x) { TakenPage(s, p, x); }
    forall r: nat ensures RootOk(s', r) { assert RootOk(s, r); }
    forall k: nat ensures FreeOk(s', k) { assert FreeOk(s, k); }
  }

  lemma FreedPage(s: State, q: nat, x: nat)
    requires Inv(s) && q < |s.pages| && Freeable(s.own[q])
    ensures PageOk(Freed(s, q), x)
  {
    var s' := Freed(s, q);
    assert PageOk(s, x) && PageOk(s, q);
    if x < |s.pages| && x != q {
      match s.own[x] {
        case Frame(p', v) => TrKept(s, s', p', v);
        case Root(p') => NodeKept(s, s', x, p', 2, 0);
        case Node(p', l, _, _) => NodeKept(s, s', x, p', l, 0);
        case Doomed(p', l, from) => NodeKept(s, s', x, p', l, from);
        case _ =>
      }
    }
  }

  lemma FreedKeeps(s: State, q: nat)
    requires Inv(s) && q < |s.pages| && Freeable(s.own[q])
    ensures Inv(Freed(s, q)) && SameTables(s, Freed(s, q))
  {
    var s' := Freed(s, q);
    forall x: nat ensures PageOk(s', x) { FreedPage(s, q, x); }
    forall r: nat ensures RootOk(s', r) { assert RootOk(s, r); }
    forall k: nat ensures FreeOk(s', k) { assert FreeOk(s, k); }
  }

  // -------------------------------------------------------- adding a table

  /** Page `q`, cleared, becomes the table under entry `i` of table `t`. */
  function Hung(s: State, p: nat, l: nat, t: nat, i: nat, q: nat): State
    requires t < |s.pages| == |s.own| && q < |s.pages| && s.pages[t].Table? && i < |s.pages[t].ptes| && l > 0
  {
    s.(pages := s.pages[q := Zeros()][t := Table(s.pages[t].ptes[i := Pte(true, q, NOPERM)])], own := s.own[q := Node(p, l - 1, t, i)])
  }

  ghost predicate Hangs(s: State, p: nat, l: nat, t: nat, i: nat, q: nat) {
    && Inv(s) && t < |s.pages| && q < |s.pages| && 0 < l <= 2 && i < ENTRIES
    && IsNode(s.own[t], p, l) && !s.own[t].Doomed? && s.pages[t].Table? && |s.pages[t].ptes| == ENTRIES && !s.pages[t].ptes[i].v
    && s.own[q] == Hand(p)
  }

  /** A new empty table translates nothing, and what was translated still is. */
  lemma HungTr(s: State, p: nat, l: nat, t: nat, i: nat, q: nat, p': nat, v: nat)
    requires Hangs(s, p, l, t, i, q)
    ensures var s' := Hung(s, p, l, t, i, q);
      && Tr(s', p', v) == Tr(s, p', v)
      && (Bottom(s, p', v) >= 0 ==> Bottom(s', p', v) == Bottom(s, p', v))
      && (Mid(s, p', v) >= 0 ==> Mid(s', p', v) == Mid(s, p', v))
  {
    Path(s, p', v);
  }

  lemma HungPage(s: State, p: nat, l: nat, t: nat, i: nat, q: nat, x: nat)
    requires Hangs(s, p, l, t, i, q)
    ensures PageOk(Hung(s, p, l, t, i, q), x)
  {
    var s' := Hung(s, p, l, t, i, q);
    assert PageOk(s, x) && PageOk(s, t);
    if x < |s.pages| && x != q && x != t {
      match s.own[x] {
        case Frame(p', v) => HungTr(s, p, l, t, i, q, p', v);
        case Root(p') => NodeKept(s, s', x, p', 2, 0);
        case Node(p', l', _, _) => NodeKept(s, s', x, p', l', 0);
        case Doomed(p', l', from) => NodeKept(s, s', x, p', l', from);
        case _ =>
      }
    } else if x == t {
      forall j | 0 <= j < ENTRIES ensures ChildOk(s', t, j, p, l) { assert ChildOk(s, t, j, p, l); }
    }
  }

  lemma HungKeeps(s: State, p: nat, l: nat, t: nat, i: nat, q: nat)
    requires Hangs(s, p, l, t, i, q)
    ensures Inv(Hung(s, p, l, t, i, q))
  {
    var s' := Hung(s, p, l, t, i, q);
    forall x: nat ensures PageOk(s', x) { HungPage(s, p, l, t, i, q, x); }
    forall r: nat ensures RootOk(s', r) { assert RootOk(s, r); }
    forall k: nat ensures FreeOk(s', k) { assert FreeOk(s, k); }
  }

  // ------------------------------------------------- setting a leaf entry

  /** Entry `i` of table `t` becomes `e`; if `take`, page `e.ppn` is now virtual page `v` of `p`. */
  function Entered(s: State, p: nat, v: nat, t: nat, e: Pte, take: bool): State
    requires t < |s.pages| == |s.own| && s.pages[t].Table? && v % 512 < |s.pages[t].ptes| && (take ==> 0 <= e.ppn < |s.own|)
  {
    s.(pages := s.pages[t := Table(s.pages[t].ptes[v % 512 := e])], own := if take then s.own[e.ppn := Frame(p, v)] else s.own)
  }

  /** Virtual page `v` holds no page of its own (so its entry may be overwritten). */
  ghost predicate NoFrame(s: State, p: nat, v: nat) {
    forall q :: 0 <= q < |s.own| ==> s.own[q] != Frame(p, v)
  }

  ghost predicate Enters(s: State, p: nat, v: nat, t: nat, e: Pte, take: bool) {
    && Inv(s) && t == Bottom(s, p, v) && t < |s.pages| && NoFrame(s, p, v) && (e.v ==> Leaf(e.perm))
    && s.pages[t].Table? && |s.pages[t].ptes| == ENTRIES
    && (take ==> e.v && 0 <= e.ppn < |s.own| && s.own[e.ppn] == Hand(p))
  }

  /** Writing one bottom entry changes the translation of one virtual page. */
  lemma EnteredTr(s: State, p: nat, v: nat, t: nat, e: Pte, take: bool, p': nat, v': nat)
    requires Enters(s, p, v, t, e, take)
    ensures var s' := Entered(s, p, v, t, e, take);
      Bottom(s', p', v') == Bottom(s, p', v') && Tr(s', p', v') == if p' == p && v' == v then e else Tr(s, p', v')
  {
    Path(s, p, v);
    Path(s, p', v');
    if Bottom(s, p', v') == t { OnePath(s, p, v, p', v'); }
  }

  lemma EnteredPage(s: State, p: nat, v: nat, t: nat, e: Pte, take: bool, x: nat)
    requires Enters(s, p, v, t, e, take)
    ensures PageOk(Entered(s, p, v, t, e, take), x)
  {
    var s' := Entered(s, p, v, t, e, take);
    assert PageOk(s, x) && PageOk(s, t);
    Path(s, p, v);
    if x < |s.pages| && x != t {
      EnteredTr(s, p, v, t, e, take, p, v);
      match s.own[x] {
        case Frame(p', v') => EnteredTr(s, p, v, t, e, take, p', v');
        case Root(p') => NodeKept(s, s', x, p', 2, 0);
        case Node(p', l', _, _) => NodeKept(s, s', x, p', l', 0);
        case Doomed(p', l', from) => NodeKept(s, s', x, p', l', from);
        case _ =>
      }
    } else if x == t {
      forall j | 0 <= j < ENTRIES ensures ChildOk(s', t, j, p, 0) { assert ChildOk(s, t, j, p, 0); }
    }
  }

  lemma EnteredKeeps(s: State, p: nat, v: nat, t: nat, e: Pte, take: bool)
    requires Enters(s, p, v, t, e, take)
    ensures Inv(Entered(s, p, v, t, e, take))
  {
    var s' := Entered(s, p, v, t, e, take);
    Path(s, p, v);
    forall x: nat ensures PageOk(s', x) { EnteredPage(s, p, v, t, e, take, x); }
    forall r: nat ensures RootOk(s', r) { assert RootOk(s, r); }
    forall k: nat ensures FreeOk(s', k) { assert FreeOk(s, k); }
  }

  // ---------------------------------------------------------- data and roots

  /** Storing into a page of user memory, or one in hand. */
  lemma StoredKeeps(s: State, q: nat, c: Contents)
    requires Inv(s) && q < |s.pages| && (s.own[q].Frame? || s.own[q].Hand?) && IsData(c)
    ensures Inv(s.(pages := s.pages[q := c])) && SameTables(s, s.(pages := s.pages[q := c]))
  {
    var s' := s.(pages := s.pages[q := c]);
    forall x: nat ensures PageOk(s', x) { StoredPage(s, q, c, x); }
    forall r: nat ensures RootOk(s', r) { assert RootOk(s, r); }
    forall k: nat ensures FreeOk(s', k) { assert FreeOk(s, k); }
  }

  lemma StoredPage(s: State, q: nat, c: Contents, x: nat)
    requires Inv(s) && q < |s.pages| && (s.own[q].Frame? || s.own[q].Hand?) && IsData(c)
    ensures PageOk(s.(pages := s.pages[q := c]), x)
  {
    var s' := s.(pages := s.pages[q := c]);
    assert PageOk(s, x);
    if x < |s.pages| {
      match s.own[x] {
        case Frame(p', v) => TrKept(s, s', p', v);
        case Root(p') => NodeKept(s, s', x, p', 2, 0);
        case Node(p', l, _, _) => NodeKept(s, s', x, p', l, 0);
        case Doomed(p', l, from) => NodeKept(s, s', x, p', l, from);
        case _ =>
      }
    }
  }

  /** A page in hand, cleared, becomes the root of space `p`. */
  function Rooted(s: State, p: nat, q: nat): State
    requires q < |s.pages| == |s.own|
  {
    s.(pages := s.pages[q := Zeros()], own := s.own[q := Root(p)], roots := s.roots[p := q])
  }

  lemma RootedTr(s: State, p: nat, q: nat, p': nat, v: nat)
    requires Inv(s) && q < |s.pages| && s.own[q] == Hand(p) && p !in s.roots
    ensures Tr(Rooted(s, p, q), p', v) == Tr(s, p', v)
  {
    Path(s, p', v);
  }

  lemma RootedPage(s: State, p: nat, q: nat, x: nat)
    requires Inv(s) && q < |s.pages| && s.own[q] == Hand(p) && p !in s.roots
    ensures PageOk(Rooted(s, p, q), x)
  {
    var s' := Rooted(s, p, q);
    assert PageOk(s, x);
    if x < |s.pages| && x != q {
      match s.own[x] {
        case Frame(p', v) => RootedTr(s, p, q, p', v);
        case Root(p') => NodeKept(s, s', x, p', 2, 0);
        case Node(p', l, _, _) => NodeKept(s, s', x, p', l, 0);
        case Doomed(p', l, from) => NodeKept(s, s', x, p', l, from);
        case _ =>
      }
    }
  }

  lemma RootedKeeps(s: State, p: nat, q: nat)
    requires Inv(s) && q < |s.pages| && s.own[q] == Hand(p) && p !in s.roots
    ensures Inv(Rooted(s, p, q))
  {
    var s' := Rooted(s, p, q);
    forall x: nat ensures PageOk(s', x) { RootedPage(s, p, q, x); }
    forall r: nat ensures RootOk(s', r) { assert RootOk(s, r); }
    forall k: nat ensures FreeOk(s', k) { assert FreeOk(s, k); }
  }

  // --------------------------------------------------------------- teardown

  /** Every table of `p` is reached by a walk. */
  lemma Reached(s: State, p: nat, b: nat, k: nat) returns (v: nat)
    requires Inv(s) && b < |s.pages| && s.own[b].Node? && s.own[b].p == p && s.own[b].level == 0 && k < ENTRIES
    requires NoneDoomed(s, p)
    ensures Bottom(s, p, v) == b && v % 512 == k
  {
    assert PageOk(s, b);
    var m, j := s.own[b].t, s.own[b].idx;
    assert PageOk(s, m);
    var r, i := s.own[m].t, s.own[m].idx;
    assert PageOk(s, r);
    v := (i * 512 + j) * 512 + k;
    assert v / 512 == i * 512 + j;
    assert v / 0x4_0000 == i && v / 512 % 512 == j && v % 512 == k;
  }

  /** The root of `p` leaves the process: from here on its tables are torn down. */
  function DoomedRoot(s: State, p: nat): State
    requires p in s.roots && s.roots[p] < |s.own|
  {
    s.(own := s.own[s.roots[p] := Doomed(p, 2, 0)], roots := s.roots - {p})
  }

  lemma DoomedRootTr(s: State, p: nat, p': nat, v: nat)
    requires Inv(s) && p in s.roots && s.roots[p] < |s.own| && p' != p
    ensures Tr(DoomedRoot(s, p), p', v) == Tr(s, p', v)
  {
  }

  lemma DoomedRootPage(s: State, p: nat, x: nat)
    requires Inv(s) && p in s.roots && s.roots[p] < |s.own| && forall v :: !Tr(s, p, v).v
    ensures PageOk(DoomedRoot(s, p), x)
  {
    var s' := DoomedRoot(s, p);
    assert PageOk(s, x) && RootOk(s, p);
    if x < |s.pages| {
      match s.own[x] {
        case Frame(p', v) => assert p' != p; DoomedRootTr(s, p, p', v);
        case Root(p') => NodeKept(s, s', x, p', 2, 0);
        case Node(p', l, _, _) => NodeKept(s, s', x, p', l, 0);
        case Doomed(p', l, from) => NodeKept(s, s', x, p', l, from);
        case _ =>
      }
    }
  }

  lemma DoomedRootKeeps(s: State, p: nat)
    requires Inv(s) && p in s.roots && s.roots[p] < |s.own| && forall v :: !Tr(s, p, v).v
    ensures Inv(DoomedRoot(s, p))
  {
    var s' := DoomedRoot(s, p);
    forall x: nat ensures PageOk(s', x) { DoomedRootPage(s, p, x); }
    forall r: nat ensures RootOk(s', r) { assert RootOk(s, r); assert RootOk(s, p); }
    forall k: nat ensures FreeOk(s', k) { assert FreeOk(s, k) && RootOk(s, p); }
  }

  /** Teardown of table `t` passes entry `from`; the table below it, if any, is doomed in turn. */
  function Passed(s: State, t: nat, child: int): State
    requires t < |s.own| && s.own[t].Doomed? && child < |s.own| && (child >= 0 ==> s.own[t].level > 0)
  {
    var own' := s.own[t := Doomed(s.own[t].p, s.own[t].level, s.own[t].from + 1)];
    s.(own := if child >= 0 then own'[child := Doomed(s.own[t].p, s.own[t].level - 1, 0)] else own')
  }

  ghost predicate Passes(s: State, t: nat, child: int) {
    && Inv(s) && t < |s.own| && s.own[t].Doomed? && s.own[t].from < ENTRIES && Step(s.pages, t, s.own[t].from) == child
    && (child >= 0 ==> s.own[t].level > 0 && child < |s.own|) && child >= -1 && !(child == -1 && At(s.pages, t, s.own[t].from).v)
  }

  lemma PassedPage(s: State, t: nat, child: int, x: nat)
    requires Passes(s, t, child)
    ensures PageOk(Passed(s, t, child), x)
  {
    var s' := Passed(s, t, child);
    var p, l, from := s.own[t].p, s.own[t].level, s.own[t].from;
    assert PageOk(s, x) && PageOk(s, t) && ChildOk(s, t, from, p, l);
    if child >= 0 { assert PageOk(s, child); }
    if x < |s.pages| {
      match s.own[x] {
        case Frame(p', v) => TrKept(s, s', p', v);
        case Root(p') => NodeKept(s, s', x, p', 2, 0);
        case Node(p', l', _, _) => NodeKept(s, s', x, p', l', 0);
        case Doomed(p', l', from') => NodeKept(s, s', x, p', l', if x == t then from + 1 else from');
        case _ =>
      }
    }
  }

  lemma PassedKeeps(s: State, t: nat, child: int)
    requires Passes(s, t, child)
    ensures Inv(Passed(s, t, child)) && (child >= 0 ==> s.own[child] == Node(s.own[t].p, s.own[t].level - 1, t, s.own[t].from))
  {
    var s' := Passed(s, t, child);
    assert PageOk(s, t) && ChildOk(s, t, s.own[t].from, s.own[t].p, s.own[t].level);
    forall x: nat ensures PageOk(s', x) { PassedPage(s, t, child, x); }
    forall r: nat ensures RootOk(s', r) { assert RootOk(s, r); }
    forall k: nat ensures FreeOk(s', k) { assert FreeOk(s, k); }
  }

  /** Clearing an entry that teardown has passed. */
  function Wiped(s: State, t: nat, i: nat): State
    requires t < |s.pages| && s.pages[t].Table? && i < |s.pages[t].ptes|
  {
    s.(pages := s.pages[t := Table(s.pages[t].ptes[i := ZERO])])
  }

  lemma WipedPage(s: State, t: nat, i: nat, x: nat)
    requires Inv(s) && t < |s.own| && s.own[t].Doomed? && i < s.own[t].from && s.pages[t].Table? && |s.pages[t].ptes| == ENTRIES && i < ENTRIES
    ensures PageOk(Wiped(s, t, i), x)
  {
    var s' := Wiped(s, t, i);
    assert PageOk(s, x) && PageOk(s, t);
    if x < |s.pages| && x != t {
      match s.own[x] {
        case Frame(p', v) => TrKept(s, s', p', v);
        case Root(p') => NodeKept(s, s', x, p', 2, 0);
        case Node(p', l', _, _) => NodeKept(s, s', x, p', l', 0);
        case Doomed(p', l', from') => NodeKept(s, s', x, p', l', from');
        case _ =>
      }
    } else if x == t {
      var p, l, from := s.own[t].p, s.own[t].level, s.own[t].from;
      forall j | from <= j < ENTRIES ensures ChildOk(s', t, j, p, l) { assert ChildOk(s, t, j, p, l); }
    }
  }

  lemma WipedKeeps(s: State, t: nat, i: nat)
    requires Inv(s) && t < |s.own| && s.own[t].Doomed? && i < s.own[t].from && s.pages[t].Table? && |s.pages[t].ptes| == ENTRIES && i < ENTRIES
    ensures Inv(Wiped(s, t, i)) && SameTables(s, Wiped(s, t, i))
  {
    var s' := Wiped(s, t, i);
    forall x: nat ensures PageOk(s', x) { WipedPage(s, t, i, x); }
    forall r: nat ensures RootOk(s', r) { assert RootOk(s, r); }
    forall k: nat ensures FreeOk(s', k) { assert FreeOk(s, k); }
  }

  /** A page that belongs to address space `p`. */
  predicate Of(r: Role, p: nat) { !r.Free? && r.p == p }

  ghost predicate NoneDoomed(s: State, p: nat) {
    forall q :: 0 <= q < |s.own| ==> !(s.own[q].Doomed? && s.own[q].p == p)
  }

  lemma NoMids(s: State, p: nat, m: nat)
    requires Inv(s) && p !in s.roots && NoneDoomed(s, p) && m < |s.own|
    ensures !IsNode(s.own[m], p, 2) && !IsNode(s.own[m], p, 1)
  {
    assert PageOk(s, m);
    if s.own[m].Node? { assert PageOk(s, s.own[m].t); }
  }

  /** Once the root is gone and nothing is being torn down, no table or memory of the space is left. */
  lemma Extinct(s: State, p: nat, q: nat)
    requires Inv(s) && p !in s.roots && NoneDoomed(s, p) && q < |s.own| && Of(s.own[q], p)
    ensures s.own[q].Hand?
  {
    assert PageOk(s, q);
    NoMids(s, p, q);
    if s.own[q].Node? { NoMids(s, p, s.own[q].t); }
  }

  // ------------------------------------------------- what an operation leaves alone

  /** Pages that are not free and not of space `p` are untouched; free pages and pages of `p` are shared among these two. */
  ghost predicate OnlyAt(s: State, s': State, p: nat, q: nat)
    requires q < |s.own| == |s.pages| == |s'.own| == |s'.pages|
  {
    if s.own[q].Free? || s.own[q].p == p then s'.own[q].Free? || s'.own[q].p == p
    else s'.own[q] == s.own[q] && s'.pages[q] == s.pages[q]
  }

  ghost predicate Only(s: State, s': State, p: nat) {
    && |s.own| == |s.pages| == |s'.own| == |s'.pages|
    && (forall q {:trigger s'.own[q]} :: 0 <= q < |s.own| ==> OnlyAt(s, s', p, q))
    && s'.roots - {p} == s.roots - {p}
  }

  lemma OnlySame(s: State, p: nat)
    requires |s.own| == |s.pages|
    ensures Only(s, s, p)
  {
    forall q | 0 <= q < |s.own| ensures OnlyAt(s, s, p, q) { }
  }

  lemma OnlyTrans(s: State, s': State, s'': State, p: nat)
    requires Only(s, s', p) && Only(s', s'', p)
    ensures Only(s, s'', p)
  {
    forall q | 0 <= q < |s.own| ensures OnlyAt(s, s'', p, q) { assert OnlyAt(s, s', p, q) && OnlyAt(s', s'', p, q); }
  }

  /** A page of virtual memory: nothing, or permissions and bytes. */
  datatype View = Hole | Page(perm: Perm, data: seq<byte>)

  function Data(pages: seq<Contents>, q: int): seq<byte> {
    if 0 <= q < |pages| && pages[q].Bytes? then pages[q].data else []
  }

  function ViewOf(s: State, p: nat, v: nat): View {
    if Tr(s, p, v).v then Page(Tr(s, p, v).perm, Data(s.pages, Tr(s, p, v).ppn)) else Hole
  }

  /** If `v` is mapped, the page it maps is held by that mapping alone. */
  predicate Owned(s: State, p: nat, v: nat) {
    Tr(s, p, v).v ==> 0 <= Tr(s, p, v).ppn < |s.own| && s.own[Tr(s, p, v).ppn] == Frame(p, v)
  }

  /** What is done for one space shows in no other. */
  lemma OnlyView(s: State, s': State, p: nat, p': nat, v: nat)
    requires Inv(s) && Only(s, s', p) && p' != p
    ensures Tr(s', p', v) == Tr(s, p', v)
    ensures Owned(s, p', v) ==> Owned(s', p', v) && ViewOf(s', p', v) == ViewOf(s, p', v)
  {
    Path(s, p', v);
    assert Top(s', p') == Top(s, p') by {
      assert p' in s.roots <==> p' in s.roots - {p};
      assert p' in s'.roots <==> p' in s'.roots - {p};
      if p' in s.roots { assert (s.roots - {p})[p'] == (s'.roots - {p})[p']; }
    }
    var t, m, b := Top(s, p'), Mid(s, p', v), Bottom(s, p', v);
    if t >= 0 { assert OnlyAt(s, s', p, t); }
    if m >= 0 { assert OnlyAt(s, s', p, m); }
    if b >= 0 { assert OnlyAt(s, s', p, b); }
    var e := Tr(s, p', v);
    if e.v && 0 <= e.ppn < |s.own| { assert OnlyAt(s, s', p, e.ppn); }
  }

  /** A page that no entry maps is no page of the space's memory. */
  lemma Unmapped(s: State, p: nat, v: nat)
    requires Inv(s) && !Tr(s, p, v).v
    ensures NoFrame(s, p, v)
  {
    forall q | 0 <= q < |s.own| ensures s.own[q] != Frame(p, v) { assert PageOk(s, q); }
  }

  /** What a walk may do: free pages become empty tables of `p`, and every translation is kept. */
  ghost predicate Walked(s: State, s': State, p: nat) {
    && |s.own| == |s.pages| == |s'.own| == |s'.pages| && s'.roots == s.roots
    && (forall q {:trigger s'.own[q]} :: 0 <= q < |s.own| ==> WalkedAt(s, s', p, q))
    && (forall v {:trigger Tr(s', p, v)} :: Tr(s', p, v) == Tr(s, p, v))
  }

  ghost predicate WalkedAt(s: State, s': State, p: nat, q: nat)
    requires q < |s.own| == |s.pages| == |s'.own| == |s'.pages|
  {
    && (s.own[q].Free? && s'.own[q] != s.own[q] ==> s'.own[q].Node? && s'.own[q].p == p)
    && (!s.own[q].Free? ==> s'.own[q] == s.own[q])
    && (!s.own[q].Free? && !IsTableOf(s.own[q], p) ==> s'.pages[q] == s.pages[q])
  }

  predicate IsTableOf(r: Role, p: nat) { (r.Root? || r.Node?) && r.p == p }

  lemma WalkedOnly(s: State, s': State, p: nat)
    requires Walked(s, s', p)
    ensures Only(s, s', p)
  {
    forall q | 0 <= q < |s.own| ensures OnlyAt(s, s', p, q) { assert WalkedAt(s, s', p, q); }
  }

  lemma WalkedRefl(s: State, p: nat)
    requires |s.own| == |s.pages|
    ensures Walked(s, s, p)
  {
    forall q | 0 <= q < |s.own| ensures WalkedAt(s, s, p, q) { }
  }

  lemma WalkedTrans(s: State, s': State, s'': State, p: nat)
    requires Walked(s, s', p) && Walked(s', s'', p)
    ensures Walked(s, s'', p)
  {
    forall q | 0 <= q < |s.own| ensures WalkedAt(s, s'', p, q) { assert WalkedAt(s, s', p, q) && WalkedAt(s', s'', p, q); }
  }

  /** `kalloc` for a table, then hanging it: one step of a walk. */
  lemma HungWalk(s: State, p: nat, l: nat, t: nat, i: nat)
    requires Inv(s) && s.free != [] && t < |s.pages| && 0 < l <= 2 && i < ENTRIES
    requires IsNode(s.own[t], p, l) && !s.own[t].Doomed? && !At(s.pages, t, i).v
    ensures var q := s.free[|s.free| - 1]; q < |s.pages| && q != t && Hangs(Taken(s, p), p, l, t, i, q)
    ensures var s' := Hung(Taken(s, p), p, l, t, i, s.free[|s.free| - 1]); Inv(s') && Walked(s, s', p)
  {
    TakenKeeps(s, p);
    var q, s1 := s.free[|s.free| - 1], Taken(s, p);
    assert PageOk(s, t) && PageOk(s1, q);
    HungKeeps(s1, p, l, t, i, q);
    var s2 := Hung(s1, p, l, t, i, q);
    forall x | 0 <= x < |s.own| ensures WalkedAt(s, s2, p, x) { }
    forall v: nat ensures Tr(Hung(s1, p, l, t, i, q), p, v) == Tr(s, p, v) {
      TrKept(s, s1, p, v);
      HungTr(s1, p, l, t, i, q, p, v);
    }
  }

  // ------------------------------------------------------------------ mapping

  /** The first `n` pages from `ppn` are mapped at `v` and, if `take`, become the space's memory; free pages may become tables. */
  ghost predicate Mapped(s: State, s': State, p: nat, v: nat, n: nat, ppn: int, perm: Perm, take: bool) {
    && |s.own| == |s.pages| == |s'.own| == |s'.pages| && s'.roots == s.roots
    && (forall q {:trigger s'.own[q]} :: 0 <= q < |s.own| ==> MappedAt(s, s', p, v, n, ppn, take, q))
    && (forall x: nat {:trigger Tr(s', p, x)} :: Tr(s', p, x) == if v <= x < v + n then Pte(true, ppn + (x - v), perm) else Tr(s, p, x))
  }

  ghost predicate MappedAt(s: State, s': State, p: nat, v: nat, n: nat, ppn: int, take: bool, q: nat)
    requires q < |s.own| == |s.pages| == |s'.own| == |s'.pages|
  {
    && (s.own[q].Free? && s'.own[q] != s.own[q] ==> s'.own[q].Node? && s'.own[q].p == p)
    && (!s.own[q].Free? ==> s'.own[q] == if take && ppn <= q < ppn + n then Frame(p, v + (q - ppn)) else s.own[q])
    && (!s.own[q].Free? && !IsTableOf(s.own[q], p) ==> s'.pages[q] == s.pages[q])
  }

  lemma MappedNone(s: State, p: nat, v: nat, ppn: int, perm: Perm, take: bool)
    requires |s.own| == |s.pages|
    ensures Mapped(s, s, p, v, 0, ppn, perm, take)
  {
    forall q | 0 <= q < |s.own| ensures MappedAt(s, s, p, v, 0, ppn, take, q) { }
  }

  lemma MappedWalk(s: State, s1: State, s2: State, p: nat, v: nat, n: nat, ppn: int, perm: Perm, take: bool)
    requires Mapped(s, s1, p, v, n, ppn, perm, take) && Walked(s1, s2, p)
    ensures Mapped(s, s2, p, v, n, ppn, perm, take)
  {
    forall q | 0 <= q < |s.own| ensures MappedAt(s, s2, p, v, n, ppn, take, q) {
      assert MappedAt(s, s1, p, v, n, ppn, take, q) && WalkedAt(s1, s2, p, q);
    }
  }

  lemma MappedNext(s: State, s1: State, p: nat, v: nat, n: nat, ppn: int, perm: Perm, take: bool, t: nat)
    requires Mapped(s, s1, p, v, n, ppn, perm, take) && Inv(s1) && t == Bottom(s1, p, v + n) && !Tr(s, p, v + n).v && Leaf(perm)
    requires t < |s1.pages| && IsTableOf(s1.own[t], p) && s1.pages[t].Table? && |s1.pages[t].ptes| == ENTRIES
    requires take ==> 0 <= ppn + n < |s.own| && s.own[ppn + n] == Hand(p)
    requires take ==> forall q :: 0 <= q < |s.own| && ppn <= q < ppn + n ==> s.own[q] == Hand(p)
    ensures Enters(s1, p, v + n, t, Pte(true, ppn + n, perm), take)
    ensures var s2 := Entered(s1, p, v + n, t, Pte(true, ppn + n, perm), take);
      Inv(s2) && Mapped(s, s2, p, v, n + 1, ppn, perm, take)
  {
    var e := Pte(true, ppn + n, perm);
    if take { assert MappedAt(s, s1, p, v, n, ppn, take, ppn + n); }
    Unmapped(s1, p, v + n);
    EnteredKeeps(s1, p, v + n, t, e, take);
    var s2 := Entered(s1, p, v + n, t, e, take);
    var n1 := n + 1;
    forall q: nat | q < |s.own| ensures MappedAt(s, s2, p, v, n1, ppn, take, q) {
      assert MappedAt(s, s1, p, v, n, ppn, take, q);
    }
    forall x: nat ensures Tr(s2, p, x) == if v <= x < v + n1 then Pte(true, ppn + (x - v), perm) else Tr(s, p, x) {
      EnteredTr(s1, p, v + n, t, e, take, p, x);
      assert Tr(s1, p, x) == if v <= x < v + n then Pte(true, ppn + (x - v), perm) else Tr(s, p, x);
    }
  }

  // ---------------------------------------------------------------- unmapping

  /** Pages `v` to `v+n` are unmapped and, if `give`, what they held is freed. */
  ghost predicate Gone(s: State, s': State, p: nat, v: nat, n: nat, give: bool) {
    && |s.own| == |s.pages| == |s'.own| == |s'.pages| && s'.roots == s.roots
    && (forall q {:trigger s'.own[q]} :: 0 <= q < |s.own| ==> GoneAt(s, s', p, v, n, give, q))
    && (forall x: nat {:trigger Tr(s', p, x)} :: if v <= x < v + n then !Tr(s', p, x).v else Tr(s', p, x) == Tr(s, p, x))
  }

  ghost predicate GoneAt(s: State, s': State, p: nat, v: nat, n: nat, give: bool, q: nat)
    requires q < |s.own| == |s.pages| == |s'.own| == |s'.pages|
  {
    if give && s.own[q].Frame? && s.own[q].p == p && v <= s.own[q].v < v + n then s'.own[q].Free?
    else s'.own[q] == s.own[q] && (!IsTableOf(s.own[q], p) ==> s'.pages[q] == s.pages[q])
  }

  lemma GoneNone(s: State, p: nat, v: nat, give: bool)
    requires |s.own| == |s.pages|
    ensures Gone(s, s, p, v, 0, give)
  {
    forall q | 0 <= q < |s.own| ensures GoneAt(s, s, p, v, 0, give, q) { }
  }

  lemma GoneTrans(s: State, s1: State, s2: State, p: nat, v: nat, n: nat, give: bool)
    requires Gone(s, s1, p, v, n, give) && Gone(s1, s2, p, v + n, 1, give)
    ensures Gone(s, s2, p, v, n + 1, give)
  {
    var a, n1 := v + n, n + 1;
    forall q: nat | q < |s.own| ensures GoneAt(s, s2, p, v, n1, give, q) {
      assert GoneAt(s, s1, p, v, n, give, q) && GoneAt(s1, s2, p, a, 1, give, q);
    }
    forall x: nat ensures if v <= x < v + n1 then !Tr(s2, p, x).v else Tr(s2, p, x) == Tr(s, p, x) {
      assert if v <= x < v + n then !Tr(s1, p, x).v else Tr(s1, p, x) == Tr(s, p, x);
      assert if a <= x < a + 1 then !Tr(s2, p, x).v else Tr(s2, p, x) == Tr(s1, p, x);
    }
  }

  /** A page that was not mapped is passed over. */
  lemma GoneSkip(s: State, s1: State, p: nat, v: nat, n: nat, give: bool)
    requires Inv(s1) && Gone(s, s1, p, v, n, give) && !Tr(s1, p, v + n).v
    ensures Gone(s, s1, p, v, n + 1, give)
  {
    Unmapped(s1, p, v + n);
    var n1 := n + 1;
    forall q: nat | q < |s.own| ensures GoneAt(s, s1, p, v, n1, give, q) { assert GoneAt(s, s1, p, v, n, give, q); }
  }

  /** The state between freeing the page and clearing its entry. */
  function Given(s: State, p: nat, v: nat, give: bool): State
    requires give ==> 0 <= Tr(s, p, v).ppn < |s.pages| == |s.own|
  {
    if give then Freed(s, Tr(s, p, v).ppn) else s
  }

  ghost predicate Goes(s: State, p: nat, v: nat, give: bool, t: nat) {
    && Inv(s) && Tr(s, p, v).v && t == Bottom(s, p, v)
    && t < |s.pages| && IsTableOf(s.own[t], p) && s.pages[t].Table? && |s.pages[t].ptes| == ENTRIES
    && if give then Owned(s, p, v) else NoFrame(s, p, v)
  }

  lemma GivenEnters(s: State, p: nat, v: nat, give: bool, t: nat)
    requires Goes(s, p, v, give, t)
    ensures var s2 := Given(s, p, v, give);
      && t < |s2.pages| == |s2.own| && s2.pages[t] == s.pages[t] && Enters(s2, p, v, t, ZERO, false)
      && Inv(Entered(s2, p, v, t, ZERO, false)) && SameTables(s, s2)
  {
    var q := Tr(s, p, v).ppn;
    if give { FreedKeeps(s, q); }
    TrKept(s, Given(s, p, v, give), p, v);
    OneFrame(s, p, v);
    EnteredKeeps(Given(s, p, v, give), p, v, t, ZERO, false);
  }

  lemma GoneNext(s: State, s1: State, p: nat, v: nat, n: nat, give: bool, t: nat)
    requires Gone(s, s1, p, v, n, give) && Goes(s1, p, v + n, give, t)
    ensures var s2 := Given(s1, p, v + n, give);
      && t < |s2.pages| == |s2.own| && s2.pages[t] == s1.pages[t] && Enters(s2, p, v + n, t, ZERO, false)
      && Inv(Entered(s2, p, v + n, t, ZERO, false)) && Gone(s, Entered(s2, p, v + n, t, ZERO, false), p, v, n + 1, give)
  {
    var a, n1 := v + n, n + 1;
    GivenEnters(s1, p, a, give, t);
    var s2 := Given(s1, p, a, give);
    var s3 := Entered(s2, p, a, t, ZERO, false);
    OneFrame(s1, p, a);
    forall q: nat | q < |s.own| ensures GoneAt(s, s3, p, v, n1, give, q) { assert GoneAt(s, s1, p, v, n, give, q); }
    forall x: nat ensures if v <= x < v + n1 then !Tr(s3, p, x).v else Tr(s3, p, x) == Tr(s, p, x) {
      EnteredTr(s2, p, a, t, ZERO, false, p, x);
      TrKept(s1, s2, p, x);
    }
  }

  /** Only the mapped page itself is held as virtual page `v`. */
  lemma OneFrame(s: State, p: nat, v: nat)
    requires Inv(s)
    ensures forall q :: 0 <= q < |s.own| && s.own[q] == Frame(p, v) ==> q == Tr(s, p, v).ppn
  {
    forall q | 0 <= q < |s.own| && s.own[q] == Frame(p, v) ensures q == Tr(s, p, v).ppn { assert PageOk(s, q); }
  }

  // ---------------------------------------------------------------- freewalk

  predicate Empty(c: Contents) { c.Table? && forall i :: 0 <= i < |c.ptes| ==> !c.ptes[i].v }

  /** No table of `p` has a leaf. */
  ghost predicate Bare(s: State, p: nat) {
    forall q :: 0 <= q < |s.own| == |s.pages| && IsNode(s.own[q], p, 0) ==> Empty(s.pages[q])
  }

  /** Tearing down tables of `p` frees some of them and touches nothing else. */
  ghost predicate TornAt(s: State, s': State, p: nat, q: nat)
    requires q < |s.own| == |s.pages| == |s'.own| == |s'.pages|
  {
    if s.own[q].Free? then s'.own[q].Free?
    else (s'.own[q] == s.own[q] && s'.pages[q] == s.pages[q]) || (s.own[q].Node? && s.own[q].p == p && s'.own[q].Free?)
  }

  ghost predicate Torn(s: State, s': State, p: nat, t: nat) {
    && |s.own| == |s.pages| == |s'.own| == |s'.pages| && s'.roots == s.roots
    && forall q {:trigger s'.own[q]} :: 0 <= q < |s.own| && q != t ==> TornAt(s, s', p, q)
  }

  /** One entry of `t` after another: the table below is torn down, then the entry cleared. */
  lemma TornNext(s: State, s1: State, s2: State, p: nat, t: nat, child: nat)
    requires Torn(s, s1, p, t) && Passes(s1, t, child) && s1.own[t].p == p && t != child && child < |s1.own|
    requires Torn(Passed(s1, t, child), s2, p, child) && s2.own[child].Free?
    requires s1.own[child].Node? && s1.own[child].p == p
    ensures Torn(s, s2, p, t) && s2.own[t] == Passed(s1, t, child).own[t] && s2.pages[t] == s1.pages[t]
  {
    var s1' := Passed(s1, t, child);
    forall q | 0 <= q < |s.own| && q != t ensures TornAt(s, s2, p, q) {
      assert TornAt(s, s1, p, q);
      if q != child { assert TornAt(s1', s2, p, q); }
    }
    assert TornAt(s1', s2, p, t);
  }

  lemma TornNone(s: State, p: nat, t: nat)
    requires |s.own| == |s.pages|
    ensures Torn(s, s, p, t)
  {
    forall q | 0 <= q < |s.own| && q != t ensures TornAt(s, s, p, q) { }
  }

  /** What happens to `t` itself does not matter. */
  lemma TornSelf(s: State, s1: State, s2: State, p: nat, t: nat)
    requires Torn(s, s1, p, t) && |s2.own| == |s1.own| && |s2.pages| == |s1.pages| && s2.roots == s1.roots
    requires forall q :: 0 <= q < |s1.own| && q != t ==> s2.own[q] == s1.own[q] && s2.pages[q] == s1.pages[q]
    ensures Torn(s, s2, p, t)
  {
    forall q | 0 <= q < |s.own| && q != t ensures TornAt(s, s2, p, q) { assert TornAt(s, s1, p, q); }
  }

  lemma PassedBare(s: State, t: nat, child: int)
    requires Passes(s, t, child) && Bare(s, s.own[t].p)
    ensures Bare(Passed(s, t, child), s.own[t].p)
  {
    PassedKeeps(s, t, child);
  }

  /** Clearing a passed entry of an upper table. */
  lemma WipedTorn(s: State, s1: State, p: nat, t: nat, i: nat)
    requires Inv(s1) && Bare(s1, p) && Torn(s, s1, p, t) && t < |s1.own| && s1.own[t].Doomed? && s1.own[t].level > 0 && i < s1.own[t].from
    requires s1.pages[t].Table? && |s1.pages[t].ptes| == ENTRIES && i < ENTRIES
    ensures var s2 := Wiped(s1, t, i); Inv(s2) && Bare(s2, p) && Torn(s, s2, p, t)
  {
    WipedKeeps(s1, t, i);
    TornSelf(s, s1, Wiped(s1, t, i), p, t);
  }

  /** Entries without translation leave no leaf in any table. */
  lemma BareSpace(s: State, p: nat)
    requires Inv(s) && NoneDoomed(s, p) && forall v :: !Tr(s, p, v).v
    ensures Bare(s, p)
  {
    forall q | 0 <= q < |s.own| == |s.pages| && IsNode(s.own[q], p, 0) ensures Empty(s.pages[q]) {
      assert PageOk(s, q);
      forall i: nat | i < |s.pages[q].ptes| ensures !s.pages[q].ptes[i].v {
        var v := Reached(s, p, q, i);
        assert !Tr(s, p, v).v;
      }
    }
  }

  ghost predicate NoDoomed(s: State) { forall q :: 0 <= q < |s.own| ==> !s.own[q].Doomed? }

  /** Space `p` is gone: only pages in hand are left of it, and they are as they were. */
  ghost predicate SpaceGone(s: State, s': State, p: nat) {
    && Inv(s') && NoDoomed(s') && p !in s'.roots && Only(s, s', p)
    && forall q {:trigger s'.own[q]} :: 0 <= q < |s.own| ==> SpaceGoneAt(s, s', p, q)
  }

  ghost predicate SpaceGoneAt(s: State, s': State, p: nat, q: nat)
    requires q < |s.own| == |s.pages| == |s'.own| == |s'.pages|
  {
    && (s.own[q] == Hand(p) ==> s'.own[q] == Hand(p) && s'.pages[q] == s.pages[q])
    && (s.own[q].Free? || (Of(s.own[q], p) && !s.own[q].Hand?) ==> s'.own[q].Free?)
  }

  /** Unmapping every page, dooming the root and tearing the tree down. */
  lemma SpaceEnds(s: State, s1: State, s2: State, p: nat, n: nat)
    requires Inv(s) && NoDoomed(s) && p in s.roots && Gone(s, s1, p, 0, n, true) && Inv(s1) && (forall v :: !Tr(s1, p, v).v)
    requires s1.roots[p] < |s1.own| && Torn(DoomedRoot(s1, p), s2, p, s1.roots[p]) && Inv(s2) && s2.own[s1.roots[p]].Free?
    ensures SpaceGone(s, s2, p)
  {
    var d, r := DoomedRoot(s1, p), s1.roots[p];
    assert RootOk(s1, p);
    forall q | 0 <= q < |s.own| ensures OnlyAt(s, s2, p, q) && !s2.own[q].Doomed? {
      assert GoneAt(s, s1, p, 0, n, true, q);
      if q != r { assert TornAt(d, s2, p, q); }
    }
    forall q | 0 <= q < |s.own| ensures SpaceGoneAt(s, s2, p, q) {
      assert GoneAt(s, s1, p, 0, n, true, q) && OnlyAt(s, s2, p, q);
      if q != r { assert TornAt(d, s2, p, q); }
      if Of(s2.own[q], p) { Extinct(s2, p, q); }
    }
  }

  // -------------------------------------------- the tables refine a flat map

  /** A walk, also one that ran out of memory halfway, changes no translation of any space. */
  lemma WalkRefines(s: State, s': State, p: nat, p': nat, x: nat)
    requires Inv(s) && Walked(s, s', p)
    ensures Tr(s', p', x) == Tr(s, p', x)
  {
    WalkedOnly(s, s', p);
    if p' != p { OnlyView(s, s', p, p', x); }
  }

  /** Mapping adds exactly its range to the one flat map. */
  lemma MapRefines(s: State, s': State, p: nat, v: nat, n: nat, ppn: int, perm: Perm, take: bool, p': nat, x: nat)
    requires Inv(s) && Mapped(s, s', p, v, n, ppn, perm, take)
    requires take ==> forall q :: 0 <= q < |s.own| && ppn <= q < ppn + n ==> s.own[q] == Hand(p)
    ensures Tr(s', p', x) == if p' == p && v <= x < v + n then Pte(true, ppn + (x - v), perm) else Tr(s, p', x)
  {
    forall q | 0 <= q < |s.own| ensures OnlyAt(s, s', p, q) { assert MappedAt(s, s', p, v, n, ppn, take, q); }
    if p' != p { OnlyView(s, s', p, p', x); }
  }

  /** Unmapping removes exactly its range. */
  lemma UnmapRefines(s: State, s': State, p: nat, v: nat, n: nat, give: bool, p': nat, x: nat)
    requires Inv(s) && Gone(s, s', p, v, n, give)
    ensures if p' == p && v <= x < v + n then !Tr(s', p', x).v else Tr(s', p', x) == Tr(s, p', x)
  {
    forall q | 0 <= q < |s.own| ensures OnlyAt(s, s', p, q) { assert GoneAt(s, s', p, v, n, give, q); }
    if p' != p { OnlyView(s, s', p, p', x); }
  }
}
