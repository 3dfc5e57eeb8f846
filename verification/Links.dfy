/**
 Link counts: `create`, `sys_link` and `sys_unlink` (sysfile.c) over `dirlookup`
 and `dirlink` (fs.c).  An inode is its kind, its link count and, for a
 directory, its entries; entry 0 is ".", entry 1 is "..", an entry with inode
 number 0 is empty.  Path lookup is left to the caller: operations get the
 parent directory and the last name.  `room` says whether a directory can grow
 by an entry (the disk may be full).
 */
module Links {

  const ROOTINO: nat := 1

  datatype Kind = Free | File | Device | Dir

  datatype Entry = Entry(name: string, inum: nat)

  datatype Ino = Ino(kind: Kind, nlink: int, slots: seq<Entry>)

  predicate Plain(x: Ino) { x.kind == File || x.kind == Device }

  const FREE: Ino := Ino(Free, 0, [])

  // --------------------------------------------------------------- counting

  /** Entries among the first `n` that refer to inode `i`. */
  function CountIn(es: seq<Entry>, n: nat, i: nat): nat
    requires n <= |es|
  {
    if n == 0 then 0 else CountIn(es, n - 1, i) + (if es[n - 1].inum == i then 1 else 0)
  }

  function Count(es: seq<Entry>, i: nat): nat { CountIn(es, |es|, i) }

  /** The named entries of a directory: all but "." and "..". */
  function Named(x: Ino): seq<Entry> {
    if x.kind == Dir && |x.slots| >= 2 then x.slots[2..] else []
  }

  /** Named entries for inode `i` in the first `n` inodes. */
  function NamesIn(inodes: seq<Ino>, n: nat, i: nat): nat
    requires n <= |inodes|
  {
    if n == 0 then 0 else NamesIn(inodes, n - 1, i) + Count(Named(inodes[n - 1]), i)
  }

  function Names(inodes: seq<Ino>, i: nat): nat { NamesIn(inodes, |inodes|, i) }

  /** A linked directory other than the root refers to its parent by "..". */
  function Dot(x: Ino, d: nat, i: nat): nat {
    if x.kind == Dir && d != ROOTINO && x.nlink > 0 && |x.slots| >= 2 && x.slots[1].inum == i then 1 else 0
  }

  function DotsIn(inodes: seq<Ino>, n: nat, i: nat): nat
    requires n <= |inodes|
  {
    if n == 0 then 0 else DotsIn(inodes, n - 1, i) + Dot(inodes[n - 1], n - 1, i)
  }

  function Dots(inodes: seq<Ino>, i: nat): nat { DotsIn(inodes, |inodes|, i) }

  lemma {:induction false} NamesInUpdate(inodes: seq<Ino>, n: nat, d: nat, x: Ino, i: nat)
    requires d < |inodes| && n <= |inodes|
    ensures d < n ==> Count(Named(inodes[d]), i) <= NamesIn(inodes, n, i)
    ensures NamesIn(inodes[d := x], n, i) == NamesIn(inodes, n, i) + if d < n then Count(Named(x), i) - Count(Named(inodes[d]), i) else 0
  {
    if n > 0 { NamesInUpdate(inodes, n - 1, d, x, i); }
  }

  lemma {:induction false} DotsInUpdate(inodes: seq<Ino>, n: nat, d: nat, x: Ino, i: nat)
    requires d < |inodes| && n <= |inodes|
    ensures d < n ==> Dot(inodes[d], d, i) <= DotsIn(inodes, n, i)
    ensures DotsIn(inodes[d := x], n, i) == DotsIn(inodes, n, i) + if d < n then Dot(x, d, i) - Dot(inodes[d], d, i) else 0
  {
    if n > 0 { DotsInUpdate(inodes, n - 1, d, x, i); }
  }

  lemma NamesUpdate(inodes: seq<Ino>, d: nat, x: Ino, i: nat)
    requires d < |inodes|
    ensures Names(inodes[d := x], i) == Names(inodes, i) - Count(Named(inodes[d]), i) + Count(Named(x), i)
    ensures Count(Named(inodes[d]), i) <= Names(inodes, i)
  {
    NamesInUpdate(inodes, |inodes|, d, x, i);
  }

  lemma DotsUpdate(inodes: seq<Ino>, d: nat, x: Ino, i: nat)
    requires d < |inodes|
    ensures Dots(inodes[d := x], i) == Dots(inodes, i) - Dot(inodes[d], d, i) + Dot(x, d, i)
    ensures Dot(inodes[d], d, i) <= Dots(inodes, i)
  {
    DotsInUpdate(inodes, |inodes|, d, x, i);
  }

  lemma {:induction false} CountInUpdate(es: seq<Entry>, n: nat, k: nat, e: Entry, i: nat)
    requires k < |es| && n <= |es|
    ensures k < n && es[k].inum == i ==> CountIn(es, n, i) > 0
    ensures CountIn(es[k := e], n, i) == CountIn(es, n, i)
      + if k < n then (if e.inum == i then 1 else 0) - (if es[k].inum == i then 1 else 0) else 0
  {
    if n > 0 { CountInUpdate(es, n - 1, k, e, i); }
  }

  lemma CountUpdate(es: seq<Entry>, k: nat, e: Entry, i: nat)
    requires k < |es|
    ensures Count(es[k := e], i) == Count(es, i) - (if es[k].inum == i then 1 else 0) + (if e.inum == i then 1 else 0)
    ensures es[k].inum == i ==> Count(es, i) > 0
  {
    CountInUpdate(es, |es|, k, e, i);
  }

  lemma {:induction false} CountPrefix(es: seq<Entry>, e: Entry, n: nat, i: nat)
    requires n <= |es|
    ensures CountIn(es + [e], n, i) == CountIn(es, n, i)
  {
    if n > 0 { CountPrefix(es, e, n - 1, i); }
  }

  lemma CountAppend(es: seq<Entry>, e: Entry, i: nat)
    ensures Count(es + [e], i) == Count(es, i) + if e.inum == i then 1 else 0
  {
    CountPrefix(es, e, |es|, i);
  }

  lemma {:induction false} CountNoneIn(es: seq<Entry>, n: nat, i: nat)
    requires n <= |es| && forall k :: 0 <= k < n ==> es[k].inum != i
    ensures CountIn(es, n, i) == 0
  {
    if n > 0 { CountNoneIn(es, n - 1, i); }
  }

  lemma CountNone(es: seq<Entry>, i: nat)
    requires forall k :: 0 <= k < |es| ==> es[k].inum != i
    ensures Count(es, i) == 0
  {
    CountNoneIn(es, |es|, i);
  }

  // -------------------------------------------------------------- invariant

  /** A directory starts with "." and ".."; its other used entries name inodes in use. */
  ghost predicate DirOk(inodes: seq<Ino>, d: nat) {
    d < |inodes| && inodes[d].kind == Dir ==>
      && d != 0 && |inodes[d].slots| >= 2
      && inodes[d].slots[0] == Entry(".", d) && inodes[d].slots[1].name == ".." && 0 < inodes[d].slots[1].inum < |inodes|
      && (forall k :: 2 <= k < |inodes[d].slots| && inodes[d].slots[k].inum != 0 ==> EntryOk(inodes, inodes[d].slots[k]))
  }

  ghost predicate EntryOk(inodes: seq<Ino>, e: Entry) {
    e.name != "." && e.name != ".." && e.inum < |inodes| && inodes[e.inum].kind != Free
  }

  ghost predicate NoNames(x: Ino) {
    forall k :: 2 <= k < |x.slots| ==> x.slots[k].inum == 0
  }

  /** The link count: named entries, ".." of linked subdirectories, one for the root, links being made. */
  ghost predicate LinkOk(inodes: seq<Ino>, pending: seq<nat>, i: nat) {
    0 < i < |inodes| == |pending| ==>
      if inodes[i].kind == Free then inodes[i] == FREE && Names(inodes, i) == 0 && Dots(inodes, i) == 0 && pending[i] == 0
      else inodes[i].nlink == Names(inodes, i) + Dots(inodes, i) + (if i == ROOTINO then 1 else 0) + pending[i]
  }

  /** A linked directory is named once, by its parent; an unlinked one names nothing. */
  ghost predicate TreeOk(inodes: seq<Ino>, pending: seq<nat>, c: nat) {
    c < |inodes| == |pending| && inodes[c].kind == Dir && |inodes[c].slots| >= 2 ==>
      && pending[c] == 0 && (c == ROOTINO ==> Names(inodes, c) == 0)
      && (c != ROOTINO && inodes[c].nlink > 0 ==>
            var p := inodes[c].slots[1].inum;
            Names(inodes, c) == 1 && p < |inodes| && inodes[p].kind == Dir && Count(Named(inodes[p]), c) == 1)
      && (inodes[c].nlink == 0 ==> NoNames(inodes[c]))
  }

  ghost predicate Inv(inodes: seq<Ino>, pending: seq<nat>) {
    && ROOTINO < |inodes| == |pending| && inodes[0] == FREE && inodes[ROOTINO].kind == Dir
    && (forall d {:trigger DirOk(inodes, d)} :: DirOk(inodes, d))
    && (forall i {:trigger LinkOk(inodes, pending, i)} :: LinkOk(inodes, pending, i))
    && (forall c {:trigger TreeOk(inodes, pending, c)} :: TreeOk(inodes, pending, c))
  }

  // ---------------------------------------------------------------- entries

  /** `slots'` is `slots` with entry `e` in an empty place, or at the end. */
  ghost predicate Added(slots: seq<Entry>, slots': seq<Entry>, e: Entry) {
    || slots' == slots + [e]
    || exists k :: 0 <= k < |slots| && slots[k].inum == 0 && slots' == slots[k := e]
  }

  lemma AddedCount(x: Ino, slots': seq<Entry>, e: Entry, i: nat)
    requires x.kind == Dir && |x.slots| >= 2 && x.slots[0].inum != 0 && x.slots[1].inum != 0
    requires Added(x.slots, slots', e) && i != 0
    ensures |slots'| >= 2 && slots'[..2] == x.slots[..2]
    ensures Count(slots'[2..], i) == Count(x.slots[2..], i) + if e.inum == i then 1 else 0
    ensures forall k :: 2 <= k < |slots'| ==> slots'[k] == e || (k < |x.slots| && slots'[k] == x.slots[k])
  {
    if slots' == x.slots + [e] {
      assert slots'[2..] == x.slots[2..] + [e];
      CountAppend(x.slots[2..], e, i);
    } else {
      var k :| 0 <= k < |x.slots| && x.slots[k].inum == 0 && slots' == x.slots[k := e];
      assert slots'[2..] == x.slots[2..][k - 2 := e];
      CountUpdate(x.slots[2..], k - 2, e, i);
    }
  }

  /** Adding a named entry for `e.inum` to directory `dp` counts there and nowhere else. */
  lemma AddedNames(inodes: seq<Ino>, dp: nat, slots': seq<Entry>, nlink: int, e: Entry, i: nat)
    requires dp < |inodes| && inodes[dp].kind == Dir && DirOk(inodes, dp) && Added(inodes[dp].slots, slots', e) && i != 0
    ensures var inodes' := inodes[dp := Ino(Dir, nlink, slots')];
      && Names(inodes', i) == Names(inodes, i) + (if e.inum == i then 1 else 0)
      && Dots(inodes', i) == Dots(inodes, i) - Dot(inodes[dp], dp, i) + Dot(inodes'[dp], dp, i)
      && Count(Named(inodes'[dp]), i) == Count(Named(inodes[dp]), i) + (if e.inum == i then 1 else 0)
  {
    AddedCount(inodes[dp], slots', e, i);
    NamesUpdate(inodes, dp, Ino(Dir, nlink, slots'), i);
    DotsUpdate(inodes, dp, Ino(Dir, nlink, slots'), i);
  }

  // ------------------------------------------------ one change at a time

  /** Link counts and tree facts depend on an inode change only through these numbers. */
  lemma UpdateNumbers(inodes: seq<Ino>, d: nat, x: Ino, i: nat)
    requires d < |inodes| && i != 0
    requires Count(Named(x), i) == Count(Named(inodes[d]), i) && Dot(x, d, i) == Dot(inodes[d], d, i)
    ensures Names(inodes[d := x], i) == Names(inodes, i) && Dots(inodes[d := x], i) == Dots(inodes, i)
  {
    NamesUpdate(inodes, d, x, i);
    DotsUpdate(inodes, d, x, i);
  }

  /** `ialloc` and the first `iupdate` of a file: one link, still to be entered somewhere. */
  lemma NewFile(inodes: seq<Ino>, pending: seq<nat>, ip: nat, x: Ino)
    requires Inv(inodes, pending) && 0 < ip < |inodes| && inodes[ip].kind == Free && Plain(x) && x.nlink == 1
    ensures Inv(inodes[ip := x], pending[ip := 1])
  {
    var inodes', pending' := inodes[ip := x], pending[ip := 1];
    assert LinkOk(inodes, pending, ip);
    forall i | 0 < i < |inodes| ensures Names(inodes', i) == Names(inodes, i) && Dots(inodes', i) == Dots(inodes, i) {
      UpdateNumbers(inodes, ip, x, i);
    }
    forall d ensures DirOk(inodes', d) { assert DirOk(inodes, d); }
    forall i ensures LinkOk(inodes', pending', i) { assert LinkOk(inodes, pending, i); }
    forall c ensures TreeOk(inodes', pending', c) { assert TreeOk(inodes, pending, c) && DirOk(inodes, c); }
  }

  /** A link being made to file `ip`, or one being taken back or dropped. */
  lemma CountLink(inodes: seq<Ino>, pending: seq<nat>, ip: nat, delta: int)
    requires Inv(inodes, pending) && 0 < ip < |inodes| && Plain(inodes[ip]) && pending[ip] + delta >= 0
    ensures Inv(inodes[ip := inodes[ip].(nlink := inodes[ip].nlink + delta)], pending[ip := pending[ip] + delta])
  {
    var x := inodes[ip].(nlink := inodes[ip].nlink + delta);
    var inodes', pending' := inodes[ip := x], pending[ip := pending[ip] + delta];
    forall i | 0 < i < |inodes| ensures Names(inodes', i) == Names(inodes, i) && Dots(inodes', i) == Dots(inodes, i) {
      UpdateNumbers(inodes, ip, x, i);
    }
    forall d ensures DirOk(inodes', d) { assert DirOk(inodes, d); }
    forall i ensures LinkOk(inodes', pending', i) { assert LinkOk(inodes, pending, i); }
    forall c ensures TreeOk(inodes', pending', c) { assert TreeOk(inodes, pending, c) && DirOk(inodes, c); }
  }

  lemma EnteredDir(inodes: seq<Ino>, pending: seq<nat>, dp: nat, ip: nat, name: string, slots': seq<Entry>, d: nat)
    requires Inv(inodes, pending) && dp < |inodes| && inodes[dp].kind == Dir && 0 < ip < |inodes| && Plain(inodes[ip])
    requires Added(inodes[dp].slots, slots', Entry(name, ip)) && name != "." && name != ".."
    ensures DirOk(inodes[dp := inodes[dp].(slots := slots')], d)
  {
    assert DirOk(inodes, dp) && DirOk(inodes, d);
    AddedCount(inodes[dp], slots', Entry(name, ip), ip);
  }

  lemma EnteredTree(inodes: seq<Ino>, pending: seq<nat>, dp: nat, ip: nat, name: string, slots': seq<Entry>, c: nat)
    requires Inv(inodes, pending) && dp < |inodes| && inodes[dp].kind == Dir && inodes[dp].nlink > 0
    requires 0 < ip < |inodes| && Plain(inodes[ip]) && pending[ip] > 0
    requires Added(inodes[dp].slots, slots', Entry(name, ip))
    ensures TreeOk(inodes[dp := inodes[dp].(slots := slots')], pending[ip := pending[ip] - 1], c)
  {
    assert TreeOk(inodes, pending, c) && DirOk(inodes, c) && DirOk(inodes, dp);
    if 0 < c < |inodes| {
      AddedCount(inodes[dp], slots', Entry(name, ip), c);
      AddedNames(inodes, dp, slots', inodes[dp].nlink, Entry(name, ip), c);
    }
  }

  /** `dirlink` of a file into a linked directory: the link being made is made. */
  lemma EnterFile(inodes: seq<Ino>, pending: seq<nat>, dp: nat, ip: nat, name: string, slots': seq<Entry>)
    requires Inv(inodes, pending) && dp < |inodes| && inodes[dp].kind == Dir && inodes[dp].nlink > 0
    requires 0 < ip < |inodes| && Plain(inodes[ip]) && pending[ip] > 0 && name != "." && name != ".."
    requires Added(inodes[dp].slots, slots', Entry(name, ip))
    ensures Inv(inodes[dp := inodes[dp].(slots := slots')], pending[ip := pending[ip] - 1])
  {
    var inodes', pending' := inodes[dp := inodes[dp].(slots := slots')], pending[ip := pending[ip] - 1];
    assert DirOk(inodes, dp);
    forall d ensures DirOk(inodes', d) { EnteredDir(inodes, pending, dp, ip, name, slots', d); }
    forall c ensures TreeOk(inodes', pending', c) { EnteredTree(inodes, pending, dp, ip, name, slots', c); }
    forall i: nat ensures LinkOk(inodes', pending', i) {
      assert LinkOk(inodes, pending, i);
      if 0 < i < |inodes| {
        AddedCount(inodes[dp], slots', Entry(name, ip), i);
        AddedNames(inodes, dp, slots', inodes[dp].nlink, Entry(name, ip), i);
      }
    }
  }

  // ---------------------------------------------------------- removing entries

  const HOLE: Entry := Entry("", 0)

  /** Clearing entry `k` of directory `dp` takes one name from the inode it named. */
  lemma ClearedNames(inodes: seq<Ino>, dp: nat, k: nat, nlink: int, i: nat)
    requires dp < |inodes| && inodes[dp].kind == Dir && 2 <= k < |inodes[dp].slots| && inodes[dp].slots[k].inum != 0 && i != 0
    ensures var inodes' := inodes[dp := Ino(Dir, nlink, inodes[dp].slots[k := HOLE])];
      && Names(inodes', i) == Names(inodes, i) - (if inodes[dp].slots[k].inum == i then 1 else 0)
      && Dots(inodes', i) == Dots(inodes, i) - Dot(inodes[dp], dp, i) + Dot(inodes'[dp], dp, i)
      && Count(Named(inodes'[dp]), i) == Count(Named(inodes[dp]), i) - (if inodes[dp].slots[k].inum == i then 1 else 0)
  {
    var slots' := inodes[dp].slots[k := HOLE];
    assert slots'[2..] == inodes[dp].slots[2..][k - 2 := HOLE];
    CountUpdate(inodes[dp].slots[2..], k - 2, HOLE, i);
    NamesUpdate(inodes, dp, Ino(Dir, nlink, slots'), i);
    DotsUpdate(inodes, dp, Ino(Dir, nlink, slots'), i);
  }

  /** `sys_unlink` of a file clears its entry; the count follows in a second step. */
  lemma EraseFile(inodes: seq<Ino>, pending: seq<nat>, dp: nat, k: nat, ip: nat)
    requires Inv(inodes, pending) && dp < |inodes| && inodes[dp].kind == Dir && 2 <= k < |inodes[dp].slots|
    requires inodes[dp].slots[k].inum == ip && 0 < ip < |inodes| && Plain(inodes[ip])
    ensures Inv(inodes[dp := inodes[dp].(slots := inodes[dp].slots[k := HOLE])], pending[ip := pending[ip] + 1])
  {
    var inodes', pending' := inodes[dp := inodes[dp].(slots := inodes[dp].slots[k := HOLE])], pending[ip := pending[ip] + 1];
    forall d ensures DirOk(inodes', d) { assert DirOk(inodes, d); }
    forall i: nat ensures LinkOk(inodes', pending', i) {
      assert LinkOk(inodes, pending, i);
      if 0 < i < |inodes| { ClearedNames(inodes, dp, k, inodes[dp].nlink, i); }
    }
    forall c: nat ensures TreeOk(inodes', pending', c) {
      assert TreeOk(inodes, pending, c) && DirOk(inodes, c);
      if 0 < c < |inodes| { ClearedNames(inodes, dp, k, inodes[dp].nlink, c); }
    }
  }

  // -------------------------------------------------------------- directories

  function NewDir(ip: nat, dp: nat): Ino {
    Ino(Dir, 1, [Entry(".", ip), Entry("..", dp)])
  }

  /** The image after `create` has made directory `ip` in `dp`. */
  function Made(inodes: seq<Ino>, dp: nat, ip: nat, slots': seq<Entry>): seq<Ino>
    requires dp < |inodes| && ip < |inodes|
  {
    inodes[ip := NewDir(ip, dp)][dp := Ino(Dir, inodes[dp].nlink + 1, slots')]
  }

  /** The numbers after `create` has made directory `ip` in `dp`. */
  lemma MadeNumbers(inodes: seq<Ino>, dp: nat, ip: nat, name: string, slots': seq<Entry>, i: nat)
    requires dp < |inodes| && inodes[dp].kind == Dir && DirOk(inodes, dp) && inodes[dp].nlink > 0
    requires 0 < ip < |inodes| && ip != dp && ip != ROOTINO && inodes[ip] == FREE && i != 0
    requires Added(inodes[dp].slots, slots', Entry(name, ip))
    ensures var inodes' := Made(inodes, dp, ip, slots');
      && Names(inodes', i) == Names(inodes, i) + (if i == ip then 1 else 0)
      && Dots(inodes', i) == Dots(inodes, i) + (if i == dp then 1 else 0)
      && Count(Named(inodes'[dp]), i) == Count(Named(inodes[dp]), i) + (if i == ip then 1 else 0)
  {
    var inodes1 := inodes[ip := NewDir(ip, dp)];
    NamesUpdate(inodes, ip, NewDir(ip, dp), i);
    DotsUpdate(inodes, ip, NewDir(ip, dp), i);
    assert Named(NewDir(ip, dp)) == [];
    AddedNames(inodes1, dp, slots', inodes[dp].nlink + 1, Entry(name, ip), i);
    AddedCount(inodes[dp], slots', Entry(name, ip), i);
  }

  /** A directory whose own numbers and whose parent's count of it are kept stays in the tree. */
  lemma TreeStays(inodes: seq<Ino>, inodes': seq<Ino>, pending: seq<nat>, c: nat)
    requires c < |inodes| == |inodes'| == |pending| && TreeOk(inodes, pending, c)
    requires inodes'[c].kind == Dir ==> inodes[c].kind == Dir && |inodes[c].slots| >= 2 && |inodes'[c].slots| >= 2
    requires inodes'[c].kind == Dir ==> inodes'[c].slots[1] == inodes[c].slots[1] && (inodes'[c].nlink > 0 ==> c == ROOTINO || inodes[c].nlink > 0)
    requires inodes'[c].kind == Dir && inodes'[c].nlink == 0 ==> NoNames(inodes'[c])
    requires inodes'[c].kind == Dir ==> Names(inodes', c) == Names(inodes, c)
    requires inodes'[c].kind == Dir && c != ROOTINO && inodes[c].nlink > 0 ==> var p := inodes[c].slots[1].inum;
      p < |inodes| && inodes[p].kind == Dir ==> inodes'[p].kind == Dir && Count(Named(inodes'[p]), c) == Count(Named(inodes[p]), c)
    ensures TreeOk(inodes', pending, c)
  {
  }

  ghost predicate Making(inodes: seq<Ino>, pending: seq<nat>, dp: nat, ip: nat, name: string, slots': seq<Entry>) {
    && Inv(inodes, pending) && dp < |inodes| && inodes[dp].kind == Dir && inodes[dp].nlink > 0
    && 0 < ip < |inodes| && inodes[ip].kind == Free && name != "." && name != ".."
    && Added(inodes[dp].slots, slots', Entry(name, ip))
  }

  lemma MadeNew(inodes: seq<Ino>, pending: seq<nat>, dp: nat, ip: nat, name: string, slots': seq<Entry>, inodes': seq<Ino>)
    requires Making(inodes, pending, dp, ip, name, slots') && inodes' == Made(inodes, dp, ip, slots')
    ensures TreeOk(inodes', pending, ip)
  {
    assert DirOk(inodes, dp) && LinkOk(inodes, pending, ip);
    MadeNumbers(inodes, dp, ip, name, slots', ip);
    NamesUpdate(inodes, dp, FREE, ip);
  }

  lemma MadeTree(inodes: seq<Ino>, pending: seq<nat>, dp: nat, ip: nat, name: string, slots': seq<Entry>, inodes': seq<Ino>, c: nat)
    requires |inodes| == |pending| && DirOk(inodes, dp) && DirOk(inodes, c) && TreeOk(inodes, pending, c)
    requires dp < |inodes| && inodes[dp].kind == Dir && inodes[dp].nlink > 0
    requires 0 < ip < |inodes| && inodes[ip] == FREE && ip != ROOTINO && Added(inodes[dp].slots, slots', Entry(name, ip))
    requires inodes' == Made(inodes, dp, ip, slots') && c != ip
    ensures TreeOk(inodes', pending, c)
  {
    if 0 < c < |inodes| {
      MadeNumbers(inodes, dp, ip, name, slots', c);
      AddedCount(inodes[dp], slots', Entry(name, ip), c);
      TreeStays(inodes, inodes', pending, c);
    }
  }

  lemma MadeDirs(inodes: seq<Ino>, pending: seq<nat>, dp: nat, ip: nat, name: string, slots': seq<Entry>, d: nat)
    requires Making(inodes, pending, dp, ip, name, slots')
    ensures DirOk(Made(inodes, dp, ip, slots'), d)
  {
    assert DirOk(inodes, dp) && DirOk(inodes, d);
    AddedCount(inodes[dp], slots', Entry(name, ip), ip);
  }

  /** `create` of a directory in a linked directory. */
  lemma MakeDir(inodes: seq<Ino>, pending: seq<nat>, dp: nat, ip: nat, name: string, slots': seq<Entry>)
    requires Making(inodes, pending, dp, ip, name, slots')
    ensures Inv(Made(inodes, dp, ip, slots'), pending)
  {
    var inodes' := Made(inodes, dp, ip, slots');
    assert DirOk(inodes, dp) && LinkOk(inodes, pending, ip);
    forall d: nat ensures DirOk(inodes', d) { MadeDirs(inodes, pending, dp, ip, name, slots', d); }
    forall c: nat ensures TreeOk(inodes', pending, c) {
      assert DirOk(inodes, c) && TreeOk(inodes, pending, c);
      if c == ip { MadeNew(inodes, pending, dp, ip, name, slots', inodes'); }
      else { MadeTree(inodes, pending, dp, ip, name, slots', inodes', c); }
    }
    forall i: nat ensures LinkOk(inodes', pending, i) {
      assert LinkOk(inodes, pending, i);
      if 0 < i < |inodes| { MadeNumbers(inodes, dp, ip, name, slots', i); }
    }
  }

  lemma {:induction false} DotsNone(inodes: seq<Ino>, n: nat, i: nat)
    requires n <= |inodes| && forall d :: 0 <= d < n ==> Dot(inodes[d], d, i) == 0
    ensures DotsIn(inodes, n, i) == 0
  {
    if n > 0 { DotsNone(inodes, n - 1, i); }
  }

  lemma {:induction false} NamesNone(inodes: seq<Ino>, n: nat, i: nat)
    requires n <= |inodes| && forall d :: 0 <= d < n ==> Named(inodes[d]) == []
    ensures NamesIn(inodes, n, i) == 0
  {
    if n > 0 { NamesNone(inodes, n - 1, i); }
  }

  /** Two directories cannot both name a directory: the one that does is its parent. */
  lemma NamedByParent(inodes: seq<Ino>, pending: seq<nat>, dp: nat, k: nat, ip: nat)
    requires Inv(inodes, pending) && dp < |inodes| && inodes[dp].kind == Dir && 2 <= k < |inodes[dp].slots|
    requires inodes[dp].slots[k].inum == ip && 0 < ip < |inodes| && inodes[ip].kind == Dir
    ensures ip != ROOTINO && |inodes[ip].slots| >= 2 && inodes[ip].slots[1].inum == dp && inodes[ip].nlink > 0 && Names(inodes, ip) == 1
    ensures Count(Named(inodes[dp]), ip) == 1
  {
    assert DirOk(inodes, ip) && TreeOk(inodes, pending, ip) && LinkOk(inodes, pending, ip);
    CountUpdate(inodes[dp].slots[2..], k - 2, HOLE, ip);
    NamesUpdate(inodes, dp, FREE, ip);
    var p := inodes[ip].slots[1].inum;
    if p != dp { NamesUpdate(inodes[dp := FREE], p, FREE, ip); }
  }

  /** An empty linked directory has exactly one link. */
  lemma EmptyHasOneLink(inodes: seq<Ino>, pending: seq<nat>, dp: nat, k: nat, ip: nat)
    requires Inv(inodes, pending) && dp < |inodes| && inodes[dp].kind == Dir && 2 <= k < |inodes[dp].slots|
    requires inodes[dp].slots[k].inum == ip && 0 < ip < |inodes| && inodes[ip].kind == Dir && NoNames(inodes[ip])
    ensures inodes[ip].nlink == 1 && Dots(inodes, ip) == 0 && ip != dp
  {
    NamedByParent(inodes, pending, dp, k, ip);
    assert LinkOk(inodes, pending, ip) && TreeOk(inodes, pending, ip);
    forall d | 0 <= d < |inodes| ensures Dot(inodes[d], d, ip) == 0 {
      assert TreeOk(inodes, pending, d) && DirOk(inodes, d);
      if d != 0 { CountNone(Named(inodes[ip]), d); }
    }
    DotsNone(inodes, |inodes|, ip);
    CountNone(Named(inodes[ip]), ip);
  }

  /** The image after `sys_unlink` of directory `ip`, named by entry `k` of `dp`. */
  function Removed(inodes: seq<Ino>, dp: nat, k: nat, ip: nat): seq<Ino>
    requires dp < |inodes| && k < |inodes[dp].slots| && ip < |inodes|
  {
    inodes[dp := Ino(Dir, inodes[dp].nlink - 1, inodes[dp].slots[k := HOLE])][ip := inodes[ip].(nlink := inodes[ip].nlink - 1)]
  }

  ghost predicate Removable(inodes: seq<Ino>, pending: seq<nat>, dp: nat, k: nat, ip: nat) {
    && Inv(inodes, pending) && dp < |inodes| && inodes[dp].kind == Dir && 2 <= k < |inodes[dp].slots|
    && inodes[dp].slots[k].inum == ip && 0 < ip < |inodes| && inodes[ip].kind == Dir && NoNames(inodes[ip])
  }

  lemma RemovedFacts(inodes: seq<Ino>, pending: seq<nat>, dp: nat, k: nat, ip: nat)
    requires Removable(inodes, pending, dp, k, ip)
    ensures ip != dp && ip != ROOTINO && inodes[ip].nlink == 1 && inodes[dp].nlink >= 2
    ensures |inodes[ip].slots| >= 2 && inodes[ip].slots[1].inum == dp
  {
    NamedByParent(inodes, pending, dp, k, ip);
    EmptyHasOneLink(inodes, pending, dp, k, ip);
    assert DirOk(inodes, dp) && LinkOk(inodes, pending, dp) && TreeOk(inodes, pending, dp);
    DotsUpdate(inodes, ip, FREE, dp);
    assert !NoNames(inodes[dp]);
  }

  lemma RemovedNumbers(inodes: seq<Ino>, pending: seq<nat>, dp: nat, k: nat, ip: nat, i: nat)
    requires Removable(inodes, pending, dp, k, ip) && i != 0
    ensures ip != dp && inodes[ip].nlink == 1 && inodes[dp].nlink >= 2
    ensures var inodes' := Removed(inodes, dp, k, ip);
      && Names(inodes', i) == Names(inodes, i) - (if i == ip then 1 else 0)
      && Dots(inodes', i) == Dots(inodes, i) - (if i == dp then 1 else 0)
      && Count(Named(inodes'[dp]), i) == Count(Named(inodes[dp]), i) - (if i == ip then 1 else 0)
  {
    RemovedFacts(inodes, pending, dp, k, ip);
    RemovedSums(inodes, dp, k, ip, i);
  }

  lemma RemovedSums(inodes: seq<Ino>, dp: nat, k: nat, ip: nat, i: nat)
    requires dp < |inodes| && inodes[dp].kind == Dir && 2 <= k < |inodes[dp].slots| && inodes[dp].nlink >= 2
    requires inodes[dp].slots[k].inum == ip && 0 < ip < |inodes| && ip != dp && ip != ROOTINO && i != 0
    requires inodes[ip].kind == Dir && inodes[ip].nlink == 1 && |inodes[ip].slots| >= 2 && inodes[ip].slots[1].inum == dp
    ensures var inodes' := Removed(inodes, dp, k, ip);
      && Names(inodes', i) == Names(inodes, i) - (if i == ip then 1 else 0)
      && Dots(inodes', i) == Dots(inodes, i) - (if i == dp then 1 else 0)
      && Count(Named(inodes'[dp]), i) == Count(Named(inodes[dp]), i) - (if i == ip then 1 else 0)
  {
    var mid := inodes[dp := Ino(Dir, inodes[dp].nlink - 1, inodes[dp].slots[k := HOLE])];
    var x := inodes[ip].(nlink := inodes[ip].nlink - 1);
    ClearedNames(inodes, dp, k, inodes[dp].nlink - 1, i);
    assert Named(x) == Named(mid[ip]) && Dot(x, ip, i) == 0 && Dot(mid[ip], ip, i) == (if i == dp then 1 else 0);
    NamesUpdate(mid, ip, x, i);
    DotsUpdate(mid, ip, x, i);
    assert Dot(mid[dp], dp, i) == Dot(inodes[dp], dp, i);
  }

  lemma RemovedTree(inodes: seq<Ino>, pending: seq<nat>, dp: nat, k: nat, ip: nat, inodes': seq<Ino>, c: nat)
    requires Removable(inodes, pending, dp, k, ip) && inodes' == Removed(inodes, dp, k, ip)
    ensures TreeOk(inodes', pending, c)
  {
    assert TreeOk(inodes, pending, c) && DirOk(inodes, c) && DirOk(inodes, dp);
    if 0 < c < |inodes| {
      RemovedNumbers(inodes, pending, dp, k, ip, c);
      if c != ip { TreeStays(inodes, inodes', pending, c); }
    }
  }

  lemma RemovedDirs(inodes: seq<Ino>, pending: seq<nat>, dp: nat, k: nat, ip: nat, inodes': seq<Ino>, d: nat)
    requires Removable(inodes, pending, dp, k, ip) && inodes' == Removed(inodes, dp, k, ip) && ip != dp
    ensures DirOk(inodes', d)
  {
    assert DirOk(inodes, d);
    if d < |inodes| && inodes[d].kind == Dir {
      forall j | 2 <= j < |inodes'[d].slots| && inodes'[d].slots[j].inum != 0 ensures EntryOk(inodes', inodes'[d].slots[j]) {
        assert inodes'[d].slots[j] == inodes[d].slots[j];
        assert EntryOk(inodes, inodes[d].slots[j]);
      }
    }
  }

  /** `sys_unlink` of an empty directory. */
  lemma RemoveDir(inodes: seq<Ino>, pending: seq<nat>, dp: nat, k: nat, ip: nat)
    requires Removable(inodes, pending, dp, k, ip)
    ensures Inv(Removed(inodes, dp, k, ip), pending)
  {
    var inodes' := Removed(inodes, dp, k, ip);
    RemovedNumbers(inodes, pending, dp, k, ip, ip);
    forall d: nat ensures DirOk(inodes', d) { RemovedDirs(inodes, pending, dp, k, ip, inodes', d); }
    forall c: nat ensures TreeOk(inodes', pending, c) { RemovedTree(inodes, pending, dp, k, ip, inodes', c); }
    forall i: nat ensures LinkOk(inodes', pending, i) {
      assert LinkOk(inodes, pending, i);
      if 0 < i < |inodes| { RemovedNumbers(inodes, pending, dp, k, ip, i); }
    }
  }

  // ------------------------------------------------------------ freeing inodes

  /** No directory names an inode without names. */
  lemma Unnamed(inodes: seq<Ino>, d: nat, k: nat, ip: nat)
    requires d < |inodes| && inodes[d].kind == Dir && 2 <= k < |inodes[d].slots| && Names(inodes, ip) == 0
    ensures inodes[d].slots[k].inum != ip
  {
    NamesUpdate(inodes, d, FREE, ip);
    CountUpdate(inodes[d].slots[2..], k - 2, HOLE, ip);
  }

  lemma FreedNumbers(inodes: seq<Ino>, ip: nat, i: nat)
    requires ip < |inodes| && inodes[ip].nlink == 0 && (inodes[ip].kind == Dir ==> NoNames(inodes[ip])) && i != 0
    ensures Names(inodes[ip := FREE], i) == Names(inodes, i) && Dots(inodes[ip := FREE], i) == Dots(inodes, i)
    ensures Count(Named(inodes[ip]), i) == 0
  {
    CountNone(Named(inodes[ip]), i);
    UpdateNumbers(inodes, ip, FREE, i);
  }

  lemma FreedDir(inodes: seq<Ino>, ip: nat, d: nat)
    requires ip < |inodes| && DirOk(inodes, d) && Names(inodes, ip) == 0
    ensures DirOk(inodes[ip := FREE], d)
  {
    if d < |inodes| && d != ip && inodes[d].kind == Dir {
      forall k | 2 <= k < |inodes[d].slots| ensures inodes[d].slots[k].inum != ip { Unnamed(inodes, d, k, ip); }
    }
  }

  lemma FreedTree(inodes: seq<Ino>, pending: seq<nat>, ip: nat, c: nat)
    requires ip < |inodes| == |pending| && inodes[ip].nlink == 0 && (inodes[ip].kind == Dir ==> NoNames(inodes[ip]))
    requires DirOk(inodes, c) && TreeOk(inodes, pending, c)
    ensures TreeOk(inodes[ip := FREE], pending, c)
  {
    if 0 < c < |inodes| && c != ip {
      FreedNumbers(inodes, ip, c);
      TreeStays(inodes, inodes[ip := FREE], pending, c);
    }
  }

  /** The last `iput` of an inode without links frees it; no entry names it, and it names nothing. */
  lemma FreeInode(inodes: seq<Ino>, pending: seq<nat>, ip: nat)
    requires Inv(inodes, pending) && 0 < ip < |inodes| && inodes[ip].kind != Free && inodes[ip].nlink == 0
    ensures Inv(inodes[ip := FREE], pending)
  {
    var inodes' := inodes[ip := FREE];
    assert LinkOk(inodes, pending, ip) && TreeOk(inodes, pending, ip) && DirOk(inodes, ip);
    forall d: nat ensures DirOk(inodes', d) {
      assert DirOk(inodes, d);
      FreedDir(inodes, ip, d);
    }
    forall i: nat ensures LinkOk(inodes', pending, i) {
      assert LinkOk(inodes, pending, i);
      if i != 0 { FreedNumbers(inodes, ip, i); }
    }
    forall c: nat ensures TreeOk(inodes', pending, c) {
      assert TreeOk(inodes, pending, c) && DirOk(inodes, c);
      FreedTree(inodes, pending, ip, c);
    }
  }

  // ------------------------------------------- entries in an unlinked directory

  /** The last `iput` of a directory without links follows sooner or later. */
  function Settled(inodes: seq<Ino>, dp: nat): seq<Ino>
    requires dp < |inodes|
  {
    if inodes[dp].nlink == 0 then inodes[dp := FREE] else inodes
  }

  ghost predicate LinksRight(inodes: seq<Ino>, pending: seq<nat>) {
    forall i {:trigger LinkOk(inodes, pending, i)} :: LinkOk(inodes, pending, i)
  }

  /** A file entered in a directory keeps its count right exactly if the directory is still linked. */
  lemma EnterFileIff(inodes: seq<Ino>, pending: seq<nat>, dp: nat, ip: nat, name: string, slots': seq<Entry>)
    requires Inv(inodes, pending) && dp < |inodes| && inodes[dp].kind == Dir
    requires 0 < ip < |inodes| && Plain(inodes[ip]) && pending[ip] > 0 && name != "." && name != ".."
    requires Added(inodes[dp].slots, slots', Entry(name, ip))
    ensures LinksRight(Settled(inodes[dp := inodes[dp].(slots := slots')], dp), pending[ip := pending[ip] - 1]) <==> inodes[dp].nlink > 0
  {
    assert DirOk(inodes, dp) && LinkOk(inodes, pending, dp) && TreeOk(inodes, pending, dp);
    if inodes[dp].nlink > 0 {
      EnterFile(inodes, pending, dp, ip, name, slots');
    } else {
      var after := inodes[dp := inodes[dp].(slots := slots')];
      assert LinkOk(inodes, pending, ip);
      CountNone(Named(inodes[dp]), ip);
      AddedNames(inodes, dp, slots', inodes[dp].nlink, Entry(name, ip), ip);
      NamesUpdate(after, dp, FREE, ip);
      DotsUpdate(after, dp, FREE, ip);
      assert !LinkOk(after[dp := FREE], pending[ip := pending[ip] - 1], ip);
    }
  }

  /** What a directory made in unlinked `dp` adds to the counts: the ".." of `dp`, which is linked again. */
  lemma MadeUnlinked(inodes: seq<Ino>, dp: nat, ip: nat, name: string, slots': seq<Entry>, i: nat)
    requires dp < |inodes| && inodes[dp].kind == Dir && DirOk(inodes, dp) && inodes[dp].nlink == 0 && dp != ROOTINO
    requires 0 < ip < |inodes| && ip != dp && ip != ROOTINO && inodes[ip] == FREE && i != 0
    requires Added(inodes[dp].slots, slots', Entry(name, ip))
    ensures var inodes' := Made(inodes, dp, ip, slots');
      && Names(inodes', i) == Names(inodes, i) + (if i == ip then 1 else 0)
      && Dots(inodes', i) == Dots(inodes, i) + (if i == dp then 1 else 0) + (if i == inodes[dp].slots[1].inum then 1 else 0)
  {
    NamesUpdate(inodes, ip, NewDir(ip, dp), i);
    DotsUpdate(inodes, ip, NewDir(ip, dp), i);
    assert Named(NewDir(ip, dp)) == [];
    AddedNames(inodes[ip := NewDir(ip, dp)], dp, slots', inodes[dp].nlink + 1, Entry(name, ip), i);
    AddedCount(inodes[dp], slots', Entry(name, ip), i);
  }

  /** A directory made in a directory keeps the link counts, and the tree, exactly if the parent is still linked. */
  lemma MakeDirIff(inodes: seq<Ino>, pending: seq<nat>, dp: nat, ip: nat, name: string, slots': seq<Entry>)
    requires Inv(inodes, pending) && dp < |inodes| && inodes[dp].kind == Dir
    requires 0 < ip < |inodes| && inodes[ip].kind == Free && name != "." && name != ".."
    requires Added(inodes[dp].slots, slots', Entry(name, ip))
    ensures LinksRight(Made(inodes, dp, ip, slots'), pending) <==> inodes[dp].nlink > 0
    ensures Inv(Made(inodes, dp, ip, slots'), pending) <==> inodes[dp].nlink > 0
  {
    assert DirOk(inodes, dp) && LinkOk(inodes, pending, dp) && LinkOk(inodes, pending, ip);
    if inodes[dp].nlink > 0 {
      MakeDir(inodes, pending, dp, ip, name, slots');
    } else {
      var q := inodes[dp].slots[1].inum;
      assert LinkOk(inodes, pending, q);
      MadeUnlinked(inodes, dp, ip, name, slots', q);
      assert !LinkOk(Made(inodes, dp, ip, slots'), pending, q);
    }
  }

  function Lost(): seq<Ino> {
    [FREE,
     Ino(Dir, 1, [Entry(".", 1), Entry("..", 1)]),
     Ino(Dir, 0, [Entry(".", 2), Entry("..", 1)]),
     FREE]
  }

  lemma LostInv()
    ensures Inv(Lost(), [0, 0, 0, 0])
  {
    var none: seq<nat> := [0, 0, 0, 0];
    forall i: nat ensures LinkOk(Lost(), none, i) && DirOk(Lost(), i) && TreeOk(Lost(), none, i) {
      if 0 < i < 4 { LostNumbers(i); }
    }
  }

  /** A process whose directory was unlinked creates "f" there and leaves: "f" keeps a link nobody holds. */
  lemma LostFile()
    ensures Inv(Lost(), [0, 0, 0, 0])
    ensures var made := Lost()[3 := Ino(File, 1, [])][2 := Lost()[2].(slots := Lost()[2].slots + [Entry("f", 3)])];
      !LinksRight(Settled(made, 2), [0, 0, 0, 0])
  {
    var none: seq<nat> := [0, 0, 0, 0];
    LostInv();
    var start := Lost()[3 := Ino(File, 1, [])];
    NewFile(Lost(), none, 3, Ino(File, 1, []));
    assert none[3 := 1][3 := 0] == none;
    EnterFileIff(start, none[3 := 1], 2, 3, "f", start[2].slots + [Entry("f", 3)]);
  }

  /** It makes directory "d" there instead: the unlinked directory counts again, in a parent that does not count it. */
  lemma LostDir()
    ensures Inv(Lost(), [0, 0, 0, 0])
    ensures !LinksRight(Made(Lost(), 2, 3, Lost()[2].slots + [Entry("d", 3)]), [0, 0, 0, 0])
  {
    LostInv();
    MakeDirIff(Lost(), [0, 0, 0, 0], 2, 3, "d", Lost()[2].slots + [Entry("d", 3)]);
  }

  lemma LostNumbers(i: nat)
    requires 0 < i < 4
    ensures Names(Lost(), i) == 0 && Dots(Lost(), i) == 0
  {
    DotsNone(Lost(), 4, i);
    NamesNone(Lost(), 4, i);
  }
}
