/**
 The system calls that change links (sysfile.c) over `dirlookup` and `dirlink`
 (fs.c), with every failure path.  Each method is one section under the inode
 locks it holds; `sys_link` has two, and other calls may run in between.
 */
module Sysfile {

  import opened Links

  /** The first used entry with this name, or the number of entries. */
  function Find(slots: seq<Entry>, name: string, from: nat := 0): (k: nat)
    requires from <= |slots|
    decreases |slots| - from
    ensures from <= k <= |slots|
    ensures k < |slots| ==> slots[k].inum != 0 && slots[k].name == name
    ensures forall j :: from <= j < k ==> slots[j].inum == 0 || slots[j].name != name
  {
    if from == |slots| || (slots[from].inum != 0 && slots[from].name == name) then from else Find(slots, name, from + 1)
  }

  /** The first empty entry, or the number of entries. */
  function Hole(slots: seq<Entry>, from: nat := 0): (k: nat)
    requires from <= |slots|
    decreases |slots| - from
    ensures from <= k <= |slots| && (k < |slots| ==> slots[k].inum == 0)
    ensures forall j :: from <= j < k ==> slots[j].inum != 0
  {
    if from == |slots| || slots[from].inum == 0 then from else Hole(slots, from + 1)
  }

  function Placed(slots: seq<Entry>, e: Entry): (r: seq<Entry>)
    ensures Added(slots, r, e)
  {
    var k := Hole(slots);
    if k < |slots| then slots[k := e] else slots + [e]
  }

  /** What a name stands for in a directory; 0 if nothing. */
  function Lookup(slots: seq<Entry>, name: string): nat {
    var k := Find(slots, name);
    if k < |slots| then slots[k].inum else 0
  }

  /** Used entries have different names. */
  ghost predicate Tidy(slots: seq<Entry>) {
    forall j, k :: 0 <= j < k < |slots| && slots[j].inum != 0 && slots[k].inum != 0 ==> slots[j].name != slots[k].name
  }

  ghost predicate AllTidy(inodes: seq<Ino>) {
    forall d :: 0 <= d < |inodes| && inodes[d].kind == Dir ==> Tidy(inodes[d].slots)
  }

  /** The directory `slots'` gives `name` the inode `inum`, and every other name what it had. */
  ghost predicate Bound(slots: seq<Entry>, slots': seq<Entry>, name: string, inum: nat) {
    Lookup(slots', name) == inum && forall x: string :: x != name ==> Lookup(slots', x) == Lookup(slots, x)
  }

  predicate HasName(e: Entry, name: string) { e.inum != 0 && e.name == name }

  /** A name stands for the same inode if the same entries have it. */
  lemma SameLookup(slots: seq<Entry>, slots': seq<Entry>, x: string)
    requires forall j :: 0 <= j < |slots| && HasName(slots[j], x) ==> j < |slots'| && slots'[j] == slots[j]
    requires forall j :: 0 <= j < |slots'| && HasName(slots'[j], x) ==> j < |slots| && slots[j] == slots'[j]
    ensures Lookup(slots', x) == Lookup(slots, x)
  {
    var a, b := Find(slots, x), Find(slots', x);
    assert a < |slots| ==> HasName(slots[a], x);
    assert b < |slots'| ==> HasName(slots'[b], x);
  }

  lemma NoLookup(slots: seq<Entry>, x: string)
    requires forall j :: 0 <= j < |slots| ==> !HasName(slots[j], x)
    ensures Lookup(slots, x) == 0
  {
    var a := Find(slots, x);
    assert a < |slots| ==> HasName(slots[a], x);
  }

  lemma PlacedTidy(slots: seq<Entry>, name: string, inum: nat)
    requires Find(slots, name) == |slots| && Tidy(slots)
    ensures Tidy(Placed(slots, Entry(name, inum)))
  {
    var h, slots' := Hole(slots), Placed(slots, Entry(name, inum));
    forall j, k | 0 <= j < k < |slots'| && slots'[j].inum != 0 && slots'[k].inum != 0 ensures slots'[j].name != slots'[k].name {
      assert j != h ==> slots'[j] == slots[j];
      assert k != h ==> slots'[k] == slots[k];
    }
  }

  /** Entering a new name binds it. */
  lemma PlacedBinds(slots: seq<Entry>, name: string, inum: nat)
    requires Find(slots, name) == |slots| && inum != 0
    ensures Bound(slots, Placed(slots, Entry(name, inum)), name, inum)
  {
    var h, slots' := Hole(slots), Placed(slots, Entry(name, inum));
    assert slots'[h] == Entry(name, inum);
    assert forall j :: 0 <= j < |slots'| && j != h ==> j < |slots| && slots'[j] == slots[j];
    var c := Find(slots', name);
    forall x: string | x != name ensures Lookup(slots', x) == Lookup(slots, x) { SameLookup(slots, slots', x); }
  }

  /** Clearing the entry of a name unbinds it, since no other entry has that name. */
  lemma ClearedUnbinds(slots: seq<Entry>, name: string)
    requires Tidy(slots) && Find(slots, name) < |slots|
    ensures var slots' := slots[Find(slots, name) := HOLE]; Bound(slots, slots', name, 0) && Tidy(slots')
  {
    var k := Find(slots, name);
    var slots' := slots[k := HOLE];
    NoLookup(slots', name);
    forall x: string | x != name ensures Lookup(slots', x) == Lookup(slots, x) { SameLookup(slots, slots', x); }
  }

  /** Whether `dirlink` succeeds: the name is new, and there is a place for it. */
  predicate Fits(slots: seq<Entry>, name: string, room: bool) {
    Find(slots, name) == |slots| && (Hole(slots) < |slots| || room)
  }

  function NextFree(inodes: seq<Ino>, from: nat): (i: nat)
    requires from <= |inodes|
    decreases |inodes| - from
    ensures from <= i <= |inodes| && (i < |inodes| ==> inodes[i].kind == Free)
    ensures forall j :: from <= j < i ==> inodes[j].kind != Free
  {
    if from == |inodes| || inodes[from].kind == Free then from else NextFree(inodes, from + 1)
  }

  /** The image after `create` has made inode `ip` under `name` in `dp`. */
  function Created(inodes: seq<Ino>, dp: nat, name: string, kind: Kind, ip: nat): seq<Ino>
    requires dp < |inodes| && ip < |inodes|
  {
    var slots' := Placed(inodes[dp].slots, Entry(name, ip));
    if kind == Dir then Made(inodes, dp, ip, slots')
    else inodes[ip := Ino(kind, 1, [])][dp := inodes[dp].(slots := slots')]
  }

  /** The image after `sys_unlink` of entry `k` of `dp`. */
  function Unlinked(inodes: seq<Ino>, dp: nat, k: nat): seq<Ino>
    requires dp < |inodes| && k < |inodes[dp].slots| && inodes[dp].slots[k].inum < |inodes|
  {
    var ip := inodes[dp].slots[k].inum;
    if inodes[ip].kind == Dir then Removed(inodes, dp, k, ip)
    else inodes[dp := inodes[dp].(slots := inodes[dp].slots[k := HOLE])][ip := inodes[ip].(nlink := inodes[ip].nlink - 1)]
  }

  function Put(inodes: seq<Ino>, ip: nat, last: bool): seq<Ino>
    requires ip < |inodes|
  {
    if last && inodes[ip].nlink == 0 then inodes[ip := FREE] else inodes
  }

  /** Inode `ip` was made under `name` in `dp`, and nothing else changed. */
  ghost predicate Entered(inodes: seq<Ino>, inodes': seq<Ino>, dp: nat, name: string, kind: Kind, ip: nat) {
    && dp < |inodes| == |inodes'| && ip < |inodes| && ip != dp && inodes'[dp].kind == inodes[dp].kind
    && Bound(inodes[dp].slots, inodes'[dp].slots, name, ip)
    && inodes'[dp].nlink == inodes[dp].nlink + (if kind == Dir then 1 else 0)
    && inodes'[ip].kind == kind && inodes'[ip].nlink == 1
    && inodes'[ip].slots == (if kind == Dir then [Entry(".", ip), Entry("..", dp)] else [])
    && forall i :: 0 <= i < |inodes| && i != dp && i != ip ==> inodes'[i] == inodes[i]
  }

  /** Entry `k` of `dp` is gone, and its inode has one link less or is free; nothing else changed. */
  ghost predicate TakenOut(inodes: seq<Ino>, inodes': seq<Ino>, dp: nat, k: nat, last: bool) {
    && dp < |inodes| == |inodes'| && k < |inodes[dp].slots| && inodes[dp].slots[k].inum < |inodes|
    && var ip := inodes[dp].slots[k].inum;
    && ip != dp && inodes'[dp].kind == inodes[dp].kind
    && |inodes'[dp].slots| == |inodes[dp].slots| && inodes'[dp].slots[k].inum == 0
    && (forall j :: 0 <= j < |inodes[dp].slots| && j != k ==> inodes'[dp].slots[j] == inodes[dp].slots[j])
    && inodes'[dp].nlink == inodes[dp].nlink - (if inodes[ip].kind == Dir then 1 else 0)
    && inodes'[ip] == (if last && inodes[ip].nlink == 1 then FREE else inodes[ip].(nlink := inodes[ip].nlink - 1))
    && (forall i :: 0 <= i < |inodes| && i != dp && i != ip ==> inodes'[i] == inodes[i])
  }

  // ------------------------------------------------------------- invariants

  /** "." and ".." are found first in every directory, so no other entry takes their names. */
  lemma DotsTaken(inodes: seq<Ino>, dp: nat, name: string)
    requires DirOk(inodes, dp) && dp < |inodes| && inodes[dp].kind == Dir
    ensures name == "." || name == ".." <==> Find(inodes[dp].slots, name) < 2
  {
    var slots := inodes[dp].slots;
    assert slots[0].name == "." && slots[1].name == "..";
    assert Find(slots, name, 1) == (if name == ".." then 1 else Find(slots, name, 2));
  }

  /** What `create` leaves, spelled out. */
  lemma CreatedEntered(inodes: seq<Ino>, dp: nat, name: string, kind: Kind, ip: nat)
    requires dp < |inodes| && 0 < ip < |inodes| && ip != dp && inodes[dp].kind == Dir && Find(inodes[dp].slots, name) == |inodes[dp].slots|
    ensures Entered(inodes, Created(inodes, dp, name, kind, ip), dp, name, kind, ip)
    ensures AllTidy(inodes) ==> AllTidy(Created(inodes, dp, name, kind, ip))
  {
    PlacedBinds(inodes[dp].slots, name, ip);
    if AllTidy(inodes) { PlacedTidy(inodes[dp].slots, name, ip); }
  }

  /** What `sys_unlink` leaves, spelled out. */
  lemma UnlinkedOut(inodes: seq<Ino>, dp: nat, name: string, last: bool)
    requires dp < |inodes| && inodes[dp].kind == Dir && Find(inodes[dp].slots, name) < |inodes[dp].slots|
    requires var ip := inodes[dp].slots[Find(inodes[dp].slots, name)].inum; ip < |inodes| && ip != dp
    ensures var k := Find(inodes[dp].slots, name); var inodes' := Put(Unlinked(inodes, dp, k), inodes[dp].slots[k].inum, last);
      TakenOut(inodes, inodes', dp, k, last) && (AllTidy(inodes) ==> AllTidy(inodes') && Bound(inodes[dp].slots, inodes'[dp].slots, name, 0))
  {
    if AllTidy(inodes) { ClearedUnbinds(inodes[dp].slots, name); }
  }

  lemma CreateKeeps(inodes: seq<Ino>, pending: seq<nat>, dp: nat, name: string, kind: Kind, ip: nat)
    requires Inv(inodes, pending) && dp < |inodes| && inodes[dp].kind == Dir && inodes[dp].nlink > 0
    requires 0 < ip < |inodes| && inodes[ip].kind == Free && kind != Free && name != "." && name != ".."
    ensures Inv(Created(inodes, dp, name, kind, ip), pending)
  {
    var slots' := Placed(inodes[dp].slots, Entry(name, ip));
    if kind == Dir {
      MakeDir(inodes, pending, dp, ip, name, slots');
    } else {
      var x := Ino(kind, 1, []);
      assert LinkOk(inodes, pending, ip);
      assert pending[ip := 1][ip := 0] == pending;
      NewFile(inodes, pending, ip, x);
      EnterFile(inodes[ip := x], pending[ip := 1], dp, ip, name, slots');
    }
  }

  lemma UnlinkFile(inodes: seq<Ino>, pending: seq<nat>, dp: nat, k: nat, ip: nat)
    requires Inv(inodes, pending) && dp < |inodes| && inodes[dp].kind == Dir && 2 <= k < |inodes[dp].slots|
    requires inodes[dp].slots[k].inum == ip && 0 < ip < |inodes| && Plain(inodes[ip])
    ensures inodes[ip].nlink >= 1 && Inv(Unlinked(inodes, dp, k), pending)
  {
    assert LinkOk(inodes, pending, ip);
    ClearedNames(inodes, dp, k, inodes[dp].nlink, ip);
    var mid, more := inodes[dp := inodes[dp].(slots := inodes[dp].slots[k := HOLE])], pending[ip := pending[ip] + 1];
    EraseFile(inodes, pending, dp, k, ip);
    CountLink(mid, more, ip, -1);
    assert more[ip := more[ip] - 1] == pending;
  }

  lemma UnlinkDir(inodes: seq<Ino>, pending: seq<nat>, dp: nat, k: nat, ip: nat)
    requires Inv(inodes, pending) && dp < |inodes| && inodes[dp].kind == Dir && 2 <= k < |inodes[dp].slots|
    requires inodes[dp].slots[k].inum == ip && 0 < ip < |inodes| && inodes[ip].kind == Dir
    ensures inodes[ip].nlink >= 1
    ensures NoNames(inodes[ip]) ==> dp != ip && Inv(Unlinked(inodes, dp, k), pending)
  {
    NamedByParent(inodes, pending, dp, k, ip);
    if NoNames(inodes[ip]) {
      EmptyHasOneLink(inodes, pending, dp, k, ip);
      RemoveDir(inodes, pending, dp, k, ip);
    }
  }

  /** Unlinking never meets an inode without links, and keeps every count. */
  lemma UnlinkKeeps(inodes: seq<Ino>, pending: seq<nat>, dp: nat, k: nat)
    requires Inv(inodes, pending) && dp < |inodes| && inodes[dp].kind == Dir && 2 <= k < |inodes[dp].slots|
    requires inodes[dp].slots[k].inum != 0
    ensures var ip := inodes[dp].slots[k].inum; ip < |inodes| && inodes[ip].kind != Free && inodes[ip].nlink >= 1
    ensures var ip := inodes[dp].slots[k].inum;
      (inodes[ip].kind == Dir ==> NoNames(inodes[ip])) ==> dp != ip && Inv(Unlinked(inodes, dp, k), pending)
  {
    assert DirOk(inodes, dp) && EntryOk(inodes, inodes[dp].slots[k]);
    var ip := inodes[dp].slots[k].inum;
    if inodes[ip].kind == Dir { UnlinkDir(inodes, pending, dp, k, ip); } else { UnlinkFile(inodes, pending, dp, k, ip); }
  }

  lemma PutKeeps(inodes: seq<Ino>, pending: seq<nat>, ip: nat, last: bool)
    requires Inv(inodes, pending) && 0 < ip < |inodes| && inodes[ip].kind != Free
    ensures Inv(Put(inodes, ip, last), pending)
  {
    if inodes[ip].nlink == 0 { FreeInode(inodes, pending, ip); }
  }

  /** The invariant holds and `ip` is in use. */
  ghost predicate Sound(inodes: seq<Ino>, pending: seq<nat>, ip: nat) {
    Inv(inodes, pending) && 0 < ip < |inodes| && inodes[ip].kind != Free
  }

  ghost predicate NoEntryNames(inodes: seq<Ino>, ip: nat) {
    forall d, k {:trigger inodes[d].slots[k]} ::
      0 <= d < |inodes| && inodes[d].kind == Dir && 2 <= k < |inodes[d].slots| ==> inodes[d].slots[k].inum != ip
  }

  /** An inode without links is named by no entry, before or after it is freed. */
  lemma FreedUnnamed(inodes: seq<Ino>, pending: seq<nat>, ip: nat)
    requires Sound(inodes, pending, ip)
    ensures inodes[ip].nlink == 0 ==> NoEntryNames(inodes[ip := FREE], ip)
  {
    assert LinkOk(inodes, pending, ip);
    if inodes[ip].nlink == 0 {
      forall d, k | 0 <= d < |inodes| && d != ip && inodes[d].kind == Dir && 2 <= k < |inodes[d].slots| ensures inodes[d].slots[k].inum != ip {
        Unnamed(inodes, d, k, ip);
      }
    }
  }

  class Inodes {
    var inodes: seq<Ino>
    ghost var pending: seq<nat>   // links counted by a `sys_link` that has not entered them yet

    constructor (n: nat)
      requires n >= 2
      ensures Inv(inodes, pending) && AllTidy(inodes) && |inodes| == n
      ensures forall i :: 0 <= i < n && i != ROOTINO ==> inodes[i] == FREE
    {
      inodes := seq(n, i => FREE)[ROOTINO := Ino(Dir, 1, [Entry(".", ROOTINO), Entry("..", ROOTINO)])];
      pending := seq(n, i => 0);
      new;
      RootOnly(inodes, pending);
    }

    method Dirlookup(dp: nat, name: string) returns (k: nat)
      requires dp < |inodes| && inodes[dp].kind == Dir
      ensures k == Find(inodes[dp].slots, name)
    {
      k := 0;
      while k < |inodes[dp].slots|
        invariant k <= |inodes[dp].slots| && Find(inodes[dp].slots, name) == Find(inodes[dp].slots, name, k)
      {
        if inodes[dp].slots[k].inum != 0 && inodes[dp].slots[k].name == name { return; }
        k := k + 1;
      }
    }

    method Dirlink(dp: nat, name: string, inum: nat, room: bool) returns (ok: bool)
      requires dp < |inodes| && inodes[dp].kind == Dir
      modifies this`inodes
      ensures ok == Fits(old(inodes)[dp].slots, name, room)
      ensures ok ==> inodes == old(inodes)[dp := old(inodes)[dp].(slots := Placed(old(inodes)[dp].slots, Entry(name, inum)))]
      ensures !ok ==> inodes == old(inodes)
    {
      var slots := inodes[dp].slots;
      var k := Dirlookup(dp, name);
      if k < |slots| { return false; }
      k := 0;
      while k < |slots| && slots[k].inum != 0
        invariant k <= |slots| && Hole(slots) == Hole(slots, k)
      {
        k := k + 1;
      }
      if k < |slots| {
        inodes := inodes[dp := inodes[dp].(slots := slots[k := Entry(name, inum)])];
      } else if room {
        inodes := inodes[dp := inodes[dp].(slots := slots + [Entry(name, inum)])];
      } else {
        return false;
      }
      ok := true;
    }

    method IsDirEmpty(dp: nat) returns (empty: bool)
      requires dp < |inodes| && inodes[dp].kind == Dir
      ensures empty == NoNames(inodes[dp])
    {
      var k := 2;
      while k < |inodes[dp].slots|
        invariant 2 <= k && forall j :: 2 <= j < k && j < |inodes[dp].slots| ==> inodes[dp].slots[j].inum == 0
      {
        if inodes[dp].slots[k].inum != 0 { return false; }
        k := k + 1;
      }
      empty := true;
    }

    /** `ip` is 0 when there is no free inode. */
    method Ialloc(kind: Kind) returns (ip: nat)
      requires 1 <= |inodes|
      modifies this`inodes
      ensures var i := NextFree(old(inodes), 1);
        if i == |old(inodes)| then ip == 0 && inodes == old(inodes)
        else ip == i && inodes == old(inodes)[i := Ino(kind, 0, [])]
    {
      ip := 1;
      while ip < |inodes|
        invariant 1 <= ip <= |inodes| && NextFree(inodes, 1) == NextFree(inodes, ip) && inodes == old(inodes)
      {
        if inodes[ip].kind == Free {
          inodes := inodes[ip := Ino(kind, 0, [])];
          return;
        }
        ip := ip + 1;
      }
      ip := 0;
    }

    /**
     Drop a reference; the `last` one to an inode without links frees it, and
     then no entry names it.  Link counts are kept either way.
     */
    method Iput(ip: nat, last: bool)
      requires ip < |inodes|
      modifies this`inodes
      ensures inodes == Put(old(inodes), ip, last)
      ensures old(Sound(inodes, pending, ip)) ==> Inv(inodes, pending)
      ensures old(Sound(inodes, pending, ip)) ==> (inodes[ip].kind == Free <==> last && old(inodes)[ip].nlink == 0)
      ensures old(Sound(inodes, pending, ip)) && inodes[ip].kind == Free ==> NoEntryNames(inodes, ip)
    {
      if Sound(inodes, pending, ip) {
        PutKeeps(inodes, pending, ip, last);
        FreedUnnamed(inodes, pending, ip);
      }
      if last && inodes[ip].nlink == 0 { inodes := inodes[ip := FREE]; }
    }

    /** A fresh directory's own two entries. */
    method FillDir(ip: nat, dp: nat, room: bool, room2: bool) returns (ok: bool)
      requires 0 < ip < |inodes| && inodes[ip] == Ino(Dir, 1, [])
      modifies this`inodes
      ensures ok == (room && room2) && |inodes| == |old(inodes)|
      ensures ok ==> inodes == old(inodes)[ip := NewDir(ip, dp)]
      ensures inodes == old(inodes)[ip := inodes[ip]]
    {
      ok := Dirlink(ip, ".", ip, room);
      if !ok { return; }
      assert inodes[ip].slots == [Entry(".", ip)];
      assert Find(inodes[ip].slots, "..", 1) == 1 && Hole(inodes[ip].slots, 1) == 1;
      ok := Dirlink(ip, "..", dp, room2);
      assert ok ==> inodes[ip].slots == [Entry(".", ip), Entry("..", dp)];
      assert ok ==> inodes == old(inodes)[ip := NewDir(ip, dp)];
    }

    /** `create` once it has a fresh inode: enter it, or give it back. */
    method Enter(dp: nat, name: string, kind: Kind, ip: nat, room: bool, room2: bool, room3: bool) returns (ok: bool)
      requires dp < |inodes| && inodes[dp].kind == Dir && 0 < ip < |inodes| && ip != dp && inodes[ip] == Ino(kind, 0, [])
      requires Find(inodes[dp].slots, name) == |inodes[dp].slots|
      modifies this`inodes
      ensures ok == (Fits(old(inodes)[dp].slots, name, room3) && (kind == Dir ==> room && room2))
      ensures inodes == if ok then Created(old(inodes), dp, name, kind, ip) else old(inodes)[ip := FREE]
    {
      inodes := inodes[ip := Ino(kind, 1, [])];
      ok := true;
      if kind == Dir { ok := FillDir(ip, dp, room, room2); }
      if ok { ok := Dirlink(dp, name, ip, room3); }
      if ok {
        if kind == Dir { inodes := inodes[dp := inodes[dp].(nlink := inodes[dp].nlink + 1)]; }
      } else {
        inodes := inodes[ip := inodes[ip].(nlink := 0)];
        Iput(ip, true);
      }
    }

    /** `room` says for ".", ".." and the entry itself whether the disk has space. */
    method Create(dp: nat, name: string, kind: Kind, room: bool, room2: bool, room3: bool) returns (ip: nat)
      requires Inv(inodes, pending) && dp < |inodes| && inodes[dp].kind == Dir && kind != Free
      modifies this`inodes
      ensures |inodes| == |old(inodes)|
      // an existing name is opened as a file, or refused
      ensures var k := Find(old(inodes)[dp].slots, name); k < |old(inodes)[dp].slots| ==>
        && inodes == old(inodes)
        && (ip != 0 ==> ip == inodes[dp].slots[k].inum)
        && (ip != 0 <==> kind == File && inodes[dp].slots[k].inum < |inodes| && Plain(inodes[inodes[dp].slots[k].inum]))
      // a new name gets the first free inode, or everything is as before
      ensures Find(old(inodes)[dp].slots, name) == |old(inodes)[dp].slots| ==>
        var i := NextFree(old(inodes), 1);
        && (ip != 0 <==> i < |inodes| && Fits(old(inodes)[dp].slots, name, room3) && (kind == Dir ==> room && room2))
        && (ip != 0 ==> ip == i && inodes == Created(old(inodes), dp, name, kind, i))
        && (ip != 0 ==> Entered(old(inodes), inodes, dp, name, kind, ip))
      ensures ip == 0 ==> inodes == old(inodes)
      ensures old(AllTidy(inodes)) ==> AllTidy(inodes)
      ensures old(inodes)[dp].nlink > 0 ==> Inv(inodes, pending)
    {
      ghost var before := inodes;
      assert DirOk(inodes, dp);
      DotsTaken(inodes, dp, name);
      var k := Dirlookup(dp, name);
      if k < |inodes[dp].slots| {
        ip := inodes[dp].slots[k].inum;
        if !(kind == File && ip < |inodes| && Plain(inodes[ip])) { ip := 0; }
        return;
      }
      ip := Ialloc(kind);
      if ip == 0 { return; }
      assert before[ip] == FREE by { assert LinkOk(before, pending, ip); }
      var ok := Enter(dp, name, kind, ip, room, room2, room3);
      if ok {
        assert inodes == Created(before, dp, name, kind, ip);
        CreatedEntered(before, dp, name, kind, ip);
        if before[dp].nlink > 0 { CreateKeeps(before, pending, dp, name, kind, ip); }
      } else {
        assert inodes == before;
        ip := 0;
      }
    }

    /** `sys_link` up to the release of the old inode's lock. */
    method LinkBegin(ip: nat) returns (ok: bool)
      requires Inv(inodes, pending) && 0 < ip < |inodes| && inodes[ip].kind != Free
      modifies this
      ensures Inv(inodes, pending)
      ensures ok == (old(inodes)[ip].kind != Dir)
      ensures !ok ==> inodes == old(inodes) && pending == old(pending)
      ensures ok ==> pending == old(pending)[ip := old(pending)[ip] + 1]
      ensures ok ==> inodes == old(inodes)[ip := old(inodes)[ip].(nlink := old(inodes)[ip].nlink + 1)]
    {
      if inodes[ip].kind == Dir { return false; }
      CountLink(inodes, pending, ip, 1);
      inodes := inodes[ip := inodes[ip].(nlink := inodes[ip].nlink + 1)];
      pending := pending[ip := pending[ip] + 1];
      ok := true;
    }

    /**
     The rest of `sys_link`: enter the new name in `dp` (0 when the path has no
     parent), or take the link back.  The inode counts a pending link, so it is
     still there.
     */
    method LinkEnd(ip: nat, dp: nat, name: string, room: bool, last: bool) returns (ok: bool)
      requires Inv(inodes, pending) && 0 < ip < |inodes| && Plain(inodes[ip]) && pending[ip] > 0
      requires dp < |inodes| && (dp != 0 ==> inodes[dp].kind == Dir)
      modifies this
      ensures ok == (dp != 0 && Fits(old(inodes)[dp].slots, name, room))
      ensures ok ==> inodes == old(inodes)[dp := old(inodes)[dp].(slots := Placed(old(inodes)[dp].slots, Entry(name, ip)))]
      ensures ok ==> dp < |inodes| && Bound(old(inodes)[dp].slots, inodes[dp].slots, name, ip)
      ensures old(AllTidy(inodes)) ==> AllTidy(inodes)
      ensures !ok ==> inodes == Put(old(inodes)[ip := old(inodes)[ip].(nlink := old(inodes)[ip].nlink - 1)], ip, last)
      ensures pending == old(pending)[ip := old(pending)[ip] - 1]
      ensures !ok || old(inodes)[dp].nlink > 0 ==> Inv(inodes, pending)
    {
      ghost var before, were := inodes, pending;
      ok := false;
      if dp != 0 {
        assert DirOk(inodes, dp);
        DotsTaken(inodes, dp, name);
        ok := Dirlink(dp, name, ip, room);
      }
      pending := pending[ip := pending[ip] - 1];
      if ok {
        PlacedBinds(before[dp].slots, name, ip);
        if AllTidy(before) { PlacedTidy(before[dp].slots, name, ip); }
        if before[dp].nlink > 0 {
          EnterFile(before, were, dp, ip, name, Placed(before[dp].slots, Entry(name, ip)));
        }
      } else {
        inodes := inodes[ip := inodes[ip].(nlink := inodes[ip].nlink - 1)];
        CountLink(before, were, ip, -1);
        PutKeeps(inodes, pending, ip, last);
        Iput(ip, last);
      }
    }

    /** `sys_unlink`; `last` says whether nobody else holds the inode. */
    method Unlink(dp: nat, name: string, last: bool) returns (ok: bool)
      requires Inv(inodes, pending) && dp < |inodes| && inodes[dp].kind == Dir
      modifies this`inodes
      ensures Inv(inodes, pending)
      ensures var k := Find(old(inodes)[dp].slots, name);
        && (ok <==> name != "." && name != ".." && k < |old(inodes)[dp].slots|
                    && var ip := old(inodes)[dp].slots[k].inum; ip < |inodes| && (old(inodes)[ip].kind == Dir ==> NoNames(old(inodes)[ip])))
        && (ok ==> TakenOut(old(inodes), inodes, dp, k, last))
      ensures old(AllTidy(inodes)) ==> AllTidy(inodes) && (ok ==> Bound(old(inodes)[dp].slots, inodes[dp].slots, name, 0))
      ensures !ok ==> inodes == old(inodes)
    {
      if name == "." || name == ".." { return false; }
      assert DirOk(inodes, dp);
      DotsTaken(inodes, dp, name);
      var k := Dirlookup(dp, name);
      if k == |inodes[dp].slots| { return false; }
      var ip := inodes[dp].slots[k].inum;
      UnlinkKeeps(inodes, pending, dp, k);
      assert inodes[ip].nlink >= 1;   // "unlink: nlink < 1" is not reached
      if inodes[ip].kind == Dir {
        var empty := IsDirEmpty(ip);
        if !empty { return false; }
      }
      inodes := inodes[dp := inodes[dp].(slots := inodes[dp].slots[k := HOLE])];
      if inodes[ip].kind == Dir {
        inodes := inodes[dp := inodes[dp].(nlink := inodes[dp].nlink - 1)];
      }
      inodes := inodes[ip := inodes[ip].(nlink := inodes[ip].nlink - 1)];
      assert inodes == Unlinked(old(inodes), dp, k);
      UnlinkedOut(old(inodes), dp, name, last);
      PutKeeps(inodes, pending, ip, last);
      Iput(ip, last);
      ok := true;
    }
  }

  lemma RootOnly(inodes: seq<Ino>, pending: seq<nat>)
    requires ROOTINO < |inodes| == |pending| && forall i :: 0 <= i < |pending| ==> pending[i] == 0
    requires inodes[ROOTINO] == Ino(Dir, 1, [Entry(".", ROOTINO), Entry("..", ROOTINO)])
    requires forall i :: 0 <= i < |inodes| && i != ROOTINO ==> inodes[i] == FREE
    ensures Inv(inodes, pending)
  {
    forall i: nat ensures LinkOk(inodes, pending, i) && TreeOk(inodes, pending, i) {
      DotsNone(inodes, |inodes|, i);
      NamesNone(inodes, |inodes|, i);
    }
  }
}
