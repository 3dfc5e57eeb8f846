/**
 The buffer cache of bio.c: NBUF buffers on a circular doubly linked list, most
 recently released first.  `next` and `prev` are indexed by buffer number; the
 extra index HEAD is the list head.  The specification sees the list as the
 sequence `order`, the times at which buffers were last released to nobody as
 `stamp`, and the value last given to each block as `latest`.
 */
module BufferCache {

  import opened Common

  type Block = seq<int>

  type Key = (nat, nat)

  datatype Buf = Buf(dev: nat, blockno: nat, valid: bool, refcnt: nat, data: Block)

  function KeyOf(b: Buf): Key { (b.dev, b.blockno) }

  // ---------------------------------------------------------- the linked list

  /** The list read as positions -1 (the head), 0, 1, ..., |order| (the head again). */
  function At(order: seq<nat>, h: nat, i: int): nat {
    if 0 <= i < |order| then order[i] else h
  }

  ghost predicate Joined(next: seq<nat>, prev: seq<nat>, order: seq<nat>, h: nat, i: int) {
    && At(order, h, i) < |next| && At(order, h, i + 1) < |prev|
    && next[At(order, h, i)] == At(order, h, i + 1) && prev[At(order, h, i + 1)] == At(order, h, i)
  }

  ghost predicate Distinct(order: seq<nat>) {
    forall i, j :: 0 <= i < j < |order| ==> order[i] != order[j]
  }

  /** `next` and `prev` describe one cycle through the head and the buffers of `order`. */
  ghost predicate Linked(next: seq<nat>, prev: seq<nat>, order: seq<nat>, h: nat) {
    && |next| == |prev| == h + 1
    && (forall i :: 0 <= i < |order| ==> order[i] < h)
    && Distinct(order)
    && (forall i {:trigger Joined(next, prev, order, h, i)} :: -1 <= i < |order| ==> Joined(next, prev, order, h, i))
  }

  function Without(order: seq<nat>, i: nat): seq<nat>
    requires i < |order|
  {
    order[..i] + order[i + 1..]
  }

  lemma Unlink(next: seq<nat>, prev: seq<nat>, order: seq<nat>, h: nat, i: nat)
    requires Linked(next, prev, order, h) && i < |order|
    ensures var b := order[i];
            && b < |next| && next[b] < |prev| && prev[b] < |next| && b !in Without(order, i)
            && Linked(next[prev[b] := next[b]], prev[next[b] := prev[b]], Without(order, i), h)
  {
    var b, order' := order[i], Without(order, i);
    assert Joined(next, prev, order, h, i - 1) && Joined(next, prev, order, h, i);
    assert next[b] == At(order, h, i + 1) && prev[b] == At(order, h, i - 1);
    var next', prev' := next[prev[b] := next[b]], prev[next[b] := prev[b]];
    forall j | -1 <= j < |order'| ensures Joined(next', prev', order', h, j) {
      var k := if j < i then j else j + 1;
      assert Joined(next, prev, order, h, k);
      assert At(order', h, j) == At(order, h, k);
      assert At(order', h, j + 1) == At(order, h, if j + 1 < i then j + 1 else j + 2);
    }
  }

  lemma StillListed(order: seq<nat>, i: nat, c: nat)
    requires i < |order| && c in order && c != order[i]
    ensures c in Without(order, i)
  {
    var j :| 0 <= j < |order| && order[j] == c;
    assert Without(order, i)[if j < i then j else j - 1] == c;
  }

  lemma LinkFront(next: seq<nat>, prev: seq<nat>, order: seq<nat>, h: nat, b: nat)
    requires Linked(next, prev, order, h) && b < h && b !in order
    ensures next[h] < |prev| && Linked(next[b := next[h]][h := b], prev[b := h][next[h] := b], [b] + order, h)
  {
    var order' := [b] + order;
    assert Joined(next, prev, order, h, -1);
    var next', prev' := next[b := next[h]][h := b], prev[b := h][next[h] := b];
    forall j | -1 <= j < |order'| ensures Joined(next', prev', order', h, j) {
      assert At(order', h, j + 1) == if j == -1 then b else At(order, h, j);
      if j > 0 {
        assert Joined(next, prev, order, h, j - 1) && At(order', h, j) == At(order, h, j - 1);
      }
    }
  }

  // ------------------------------------------------------- what the cache keeps

  /** On devices other than 0, no two buffers hold the same block. */
  ghost predicate Unique(bufs: seq<Buf>) {
    forall i, j :: 0 <= i < j < |bufs| && bufs[i].dev != 0 ==> KeyOf(bufs[i]) != KeyOf(bufs[j])
  }

  /** The list is ordered by the time of the last release, latest first. */
  ghost predicate Recent(order: seq<nat>, stamp: seq<nat>, clock: nat) {
    && (forall i :: 0 <= i < |order| ==> order[i] < |stamp| && stamp[order[i]] <= clock)
    && (forall i, j :: 0 <= i < j < |order| ==> stamp[order[i]] > stamp[order[j]])
  }

  /** The order that `binit` builds, and the stamps that go with it. */
  function Down(b: nat): seq<nat> { if b == 0 then [] else [b - 1] + Down(b - 1) }

  function Stamps(b: nat): seq<nat> { if b == 0 then [] else Stamps(b - 1) + [b] }

  lemma {:induction false} DownOrder(b: nat)
    ensures |Stamps(b)| == b && (forall c :: 0 <= c < b ==> Stamps(b)[c] == c + 1)
    ensures (forall c: nat :: c in Down(b) <==> c < b) && Recent(Down(b), Stamps(b), b)
  {
    if b > 0 {
      DownOrder(b - 1);
      RecentFront(Down(b - 1), Stamps(b - 1), Stamps(b), b - 1, b - 1, b);
    }
  }

  /** A buffer put in front with a new stamp is the latest. */
  lemma RecentFront(order: seq<nat>, stamp: seq<nat>, stamp': seq<nat>, clock: nat, b: nat, now: nat)
    requires Recent(order, stamp, clock) && clock < now && b < |stamp'| && stamp'[b] == now
    requires b !in order && |stamp| <= |stamp'| && forall c :: 0 <= c < |stamp| && c != b ==> stamp'[c] == stamp[c]
    ensures Recent([b] + order, stamp', now)
  {
    var order' := [b] + order;
    forall i | 0 < i < |order'| ensures order'[i] == order[i - 1] && order'[i] < |stamp| && stamp'[order'[i]] == stamp[order[i - 1]] <= clock {
      assert order[i - 1] in order;
    }
  }

  ghost predicate BufOk(b: Buf, disk: map<Key, Block>, latest: map<Key, Block>) {
    b.valid && b.dev != 0 ==>
      && KeyOf(b) in latest && b.data == latest[KeyOf(b)]
      && (b.refcnt == 0 ==> KeyOf(b) in disk && disk[KeyOf(b)] == b.data)
  }

  ghost predicate Cached(bufs: seq<Buf>, k: Key) {
    exists i :: 0 <= i < |bufs| && bufs[i].valid && KeyOf(bufs[i]) == k
  }

  /** Valid buffers hold the latest value; so does the disk for a block nobody caches or uses. */
  ghost predicate Coherent(bufs: seq<Buf>, disk: map<Key, Block>, latest: map<Key, Block>) {
    && disk.Keys == latest.Keys
    && (forall i :: 0 <= i < |bufs| ==> BufOk(bufs[i], disk, latest))
    && (forall k :: k in disk && k.0 != 0 && !Cached(bufs, k) ==> disk[k] == latest[k])
  }

  lemma UniqueKey(bufs: seq<Buf>, i: nat, j: nat)
    requires Unique(bufs) && i < |bufs| && j < |bufs| && i != j && bufs[i].dev != 0
    ensures KeyOf(bufs[i]) != KeyOf(bufs[j])
  {
    assert i < j ==> KeyOf(bufs[i]) != KeyOf(bufs[j]);
    assert j < i && bufs[j].dev != 0 ==> KeyOf(bufs[j]) != KeyOf(bufs[i]);
  }

  /** Replacing buffer `i` uncaches at most the block it held. */
  lemma StillCached(bufs: seq<Buf>, i: nat, b: Buf, x: Key)
    requires i < |bufs| && Cached(bufs, x)
    ensures Cached(bufs[i := b], x) || (bufs[i].valid && KeyOf(bufs[i]) == x)
  {
    var j :| 0 <= j < |bufs| && bufs[j].valid && KeyOf(bufs[j]) == x;
    assert j != i ==> bufs[i := b][j] == bufs[j];
  }

  /** Buffer `i` given to block `k`: what it held stays safe on the disk. */
  lemma Recycled(bufs: seq<Buf>, disk: map<Key, Block>, latest: map<Key, Block>, i: nat, k: Key)
    requires Coherent(bufs, disk, latest) && Unique(bufs) && i < |bufs| && bufs[i].refcnt == 0
    requires forall j :: 0 <= j < |bufs| ==> KeyOf(bufs[j]) != k
    ensures var bufs' := bufs[i := Buf(k.0, k.1, false, 1, bufs[i].data)];
            Coherent(bufs', disk, latest) && Unique(bufs')
  {
    var b := Buf(k.0, k.1, false, 1, bufs[i].data);
    forall x | x in disk && x.0 != 0 && !Cached(bufs[i := b], x) ensures disk[x] == latest[x] {
      if Cached(bufs, x) {
        StillCached(bufs, i, b, x);
        assert BufOk(bufs[i], disk, latest);
      }
    }
  }

  /** Buffer `i` changed without a change of block: all other blocks are as before. */
  lemma Changed(bufs: seq<Buf>, disk: map<Key, Block>, latest: map<Key, Block>, i: nat, b: Buf,
                disk': map<Key, Block>, latest': map<Key, Block>)
    requires Coherent(bufs, disk, latest) && Unique(bufs) && i < |bufs|
    requires KeyOf(b) == KeyOf(bufs[i]) && (b.valid || !bufs[i].valid)
    requires disk'.Keys == disk.Keys && latest'.Keys == latest.Keys
    requires forall k :: k in disk && (k != KeyOf(b) || k.0 == 0) ==> disk'[k] == disk[k] && latest'[k] == latest[k]
    requires BufOk(b, disk', latest') && (b.dev != 0 && !b.valid ==> disk' == disk && latest' == latest)
    ensures Coherent(bufs[i := b], disk', latest') && Unique(bufs[i := b])
  {
    var bufs' := bufs[i := b];
    forall j | 0 <= j < |bufs'| ensures BufOk(bufs'[j], disk', latest') {
      assert BufOk(bufs[j], disk, latest);
      if j != i && bufs[j].dev != 0 { UniqueKey(bufs, j, i); }
    }
    forall x | x in disk' && x.0 != 0 && !Cached(bufs', x) ensures disk'[x] == latest'[x] {
      if Cached(bufs, x) { StillCached(bufs, i, b, x); }
      assert bufs'[i] == b;
    }
  }

  // ------------------------------------------------------------------ the code

  class Bcache {
    const NBUF: nat
    const bufs: array<Buf>
    const next: array<nat>
    const prev: array<nat>
    var disk: map<Key, Block>
    ghost var order: seq<nat>
    ghost var stamp: seq<nat>
    ghost var clock: nat
    ghost var latest: map<Key, Block>

    ghost predicate Listed()
      reads this, next, prev
    {
      && next != prev && Linked(next[..], prev[..], order, NBUF)
      && (forall b :: 0 <= b < NBUF ==> b in order)
      && |stamp| == NBUF && Recent(order, stamp, clock)
    }

    ghost predicate Valid()
      reads this, bufs, next, prev
    {
      && bufs.Length == NBUF && Listed()
      && Unique(bufs[..]) && Coherent(bufs[..], disk, latest)
    }

    /** Put buffer `b`, which is off the list, at its front. */
    method PushFront(b: nat)
      requires next != prev && Linked(next[..], prev[..], order, NBUF) && b < NBUF && b !in order
      modifies next, prev, this`order
      ensures order == [b] + old(order) && Linked(next[..], prev[..], order, NBUF)
    {
      LinkFront(next[..], prev[..], order, NBUF, b);
      ghost var n: seq<nat>, p: seq<nat> := next[..], prev[..];
      next[b] := next[NBUF];
      prev[b] := NBUF;
      prev[next[NBUF]] := b;
      next[NBUF] := b;
      order := [b] + order;
      assert next[..] == n[b := n[NBUF]][NBUF := b];
      assert prev[..] == p[b := NBUF][n[NBUF] := b];
    }

    constructor (n: nat, disk: map<Key, Block>)
      ensures Valid() && NBUF == n && this.disk == disk && latest == disk
      ensures forall b :: 0 <= b < n ==> bufs[b] == Buf(0, 0, false, 0, [])
    {
      NBUF, this.disk, latest := n, disk, disk;
      bufs := new Buf[n](_ => Buf(0, 0, false, 0, []));
      next := new nat[n + 1](_ => n);
      prev := new nat[n + 1](_ => n);
      order, stamp, clock := [], [], 0;
      new;
      var b := 0;
      assert Joined(next[..], prev[..], order, NBUF, -1);
      while b < NBUF
        invariant 0 <= b <= NBUF && Linked(next[..], prev[..], order, NBUF) && order == Down(b) && clock == b && stamp == Stamps(b)
        invariant this.disk == disk == latest && forall c :: 0 <= c < n ==> bufs[c] == Buf(0, 0, false, 0, [])
      {
        DownOrder(b);
        PushFront(b);
        clock := clock + 1;
        stamp := stamp + [clock];
        b := b + 1;
      }
      DownOrder(n);
    }

    /** The first scan of `bget`: the buffer that holds the block, if there is one. */
    method FindCached(dev: nat, blockno: nat) returns (r: Option<nat>)
      requires bufs.Length == NBUF && Listed()
      ensures r.Some? ==> r.value < NBUF && KeyOf(bufs[r.value]) == (dev, blockno)
      ensures r == None ==> forall j :: 0 <= j < NBUF ==> KeyOf(bufs[j]) != (dev, blockno)
    {
      var b := next[NBUF];
      ghost var i := 0;
      assert Joined(next[..], prev[..], order, NBUF, -1);
      while b != NBUF
        invariant 0 <= i <= |order| && b == At(order, NBUF, i)
        invariant forall j :: 0 <= j < i ==> KeyOf(bufs[order[j]]) != (dev, blockno)
        decreases |order| - i
      {
        if bufs[b].dev == dev && bufs[b].blockno == blockno { return Some(b); }
        assert Joined(next[..], prev[..], order, NBUF, i);
        b := next[b];
        i := i + 1;
      }
      forall j | 0 <= j < NBUF ensures KeyOf(bufs[j]) != (dev, blockno) { assert j in order; }
      return None;
    }

    /** The second scan, from the back: the unused buffer released longest ago. */
    method FindOldest() returns (r: Option<nat>)
      requires bufs.Length == NBUF && Listed()
      ensures r.Some? ==> r.value < NBUF && bufs[r.value].refcnt == 0
      ensures r.Some? ==> forall j :: 0 <= j < NBUF && bufs[j].refcnt == 0 ==> stamp[r.value] <= stamp[j]
      ensures r == None ==> forall j :: 0 <= j < NBUF ==> bufs[j].refcnt > 0
    {
      var b := prev[NBUF];
      ghost var i := |order| - 1;
      assert Joined(next[..], prev[..], order, NBUF, i);
      while b != NBUF
        invariant -1 <= i < |order| && b == At(order, NBUF, i)
        invariant forall j :: i < j < |order| ==> bufs[order[j]].refcnt > 0
        decreases i + 1
      {
        if bufs[b].refcnt == 0 {
          forall j | 0 <= j < NBUF && bufs[j].refcnt == 0 ensures stamp[b] <= stamp[j] { assert j in order; }
          return Some(b);
        }
        assert Joined(next[..], prev[..], order, NBUF, i - 1);
        b := prev[b];
        i := i - 1;
      }
      forall j | 0 <= j < NBUF ensures bufs[j].refcnt > 0 { assert j in order; }
      return None;
    }

    /** The buffer for block (dev, blockno), or None for the panic "no buffers". */
    method Bget(dev: nat, blockno: nat) returns (r: Option<nat>)
      requires Valid()
      modifies bufs
      ensures Valid()
      ensures r.Some? ==> r.value < NBUF && KeyOf(bufs[r.value]) == (dev, blockno) && bufs[r.value].refcnt > 0
      ensures r.Some? ==> bufs[..] == old(bufs[..])[r.value := bufs[r.value]]
      ensures r.Some? && KeyOf(old(bufs[..])[r.value]) == (dev, blockno) ==>
                bufs[r.value] == old(bufs[..])[r.value].(refcnt := old(bufs[..])[r.value].refcnt + 1)
      ensures r.Some? && KeyOf(old(bufs[..])[r.value]) != (dev, blockno) ==>
                && (forall j :: 0 <= j < NBUF ==> KeyOf(old(bufs[..])[j]) != (dev, blockno))
                && old(bufs[..])[r.value].refcnt == 0 && !bufs[r.value].valid
                && (forall j :: 0 <= j < NBUF && old(bufs[..])[j].refcnt == 0 ==> stamp[r.value] <= stamp[j])
      ensures r == None ==> bufs[..] == old(bufs[..]) && forall j :: 0 <= j < NBUF ==> bufs[j].refcnt > 0
    {
      r := FindCached(dev, blockno);
      if r.Some? {
        var b := r.value;
        Changed(bufs[..], disk, latest, b, bufs[b].(refcnt := bufs[b].refcnt + 1), disk, latest);
        bufs[b] := bufs[b].(refcnt := bufs[b].refcnt + 1);
        assert bufs[..] == old(bufs[..])[b := bufs[b]];
        return;
      }
      r := FindOldest();
      if r.Some? {
        var b := r.value;
        Recycled(bufs[..], disk, latest, b, (dev, blockno));
        bufs[b] := Buf(dev, blockno, false, 1, bufs[b].data);
        assert bufs[..] == old(bufs[..])[b := bufs[b]];
      }
    }

    /** `bread` returns a buffer with the latest value of the block. */
    method Bread(dev: nat, blockno: nat) returns (r: Option<nat>)
      requires Valid() && dev != 0 && (dev, blockno) in disk
      modifies bufs
      ensures Valid()
      ensures r.Some? ==> r.value < NBUF && KeyOf(bufs[r.value]) == (dev, blockno) && bufs[r.value].refcnt > 0
      ensures r.Some? ==> bufs[r.value].valid && bufs[r.value].data == latest[(dev, blockno)]
      ensures r == None ==> bufs[..] == old(bufs[..]) && forall j :: 0 <= j < NBUF ==> bufs[j].refcnt > 0
      ensures r.Some? ==> bufs[..] == old(bufs[..])[r.value := bufs[r.value]]
    {
      r := Bget(dev, blockno);
      if r.Some? && !bufs[r.value].valid {
        var b := r.value;
        forall j | 0 <= j < NBUF ensures !(bufs[j].valid && KeyOf(bufs[j]) == (dev, blockno)) {
          if j != b { UniqueKey(bufs[..], b, j); }
        }
        Changed(bufs[..], disk, latest, b, bufs[b].(valid := true, data := disk[(dev, blockno)]), disk, latest);
        ghost var mid := bufs[..];
        bufs[b] := bufs[b].(data := disk[(dev, blockno)]);
        bufs[b] := bufs[b].(valid := true);
        assert bufs[..] == mid[b := mid[b].(valid := true, data := disk[(dev, blockno)])];
        assert bufs[..] == old(bufs[..])[b := bufs[b]];
      }
    }

    /** The holder of buffer `b` stores into it: that is now the block's latest value. */
    method Modify(b: nat, data: Block)
      requires Valid() && b < NBUF && bufs[b].dev != 0 && bufs[b].valid && bufs[b].refcnt > 0
      modifies bufs, this`latest
      ensures Valid() && latest == old(latest)[KeyOf(bufs[b]) := data]
      ensures bufs[..] == old(bufs[..])[b := old(bufs[b]).(data := data)]
    {
      ghost var k := KeyOf(bufs[b]);
      assert BufOk(bufs[..][b], disk, latest);
      Changed(bufs[..], disk, latest, b, bufs[b].(data := data), disk, latest[k := data]);
      bufs[b] := bufs[b].(data := data);
      latest := latest[k := data];
      assert bufs[..] == old(bufs[..])[b := bufs[b]];
    }

    method Bwrite(b: nat)
      requires Valid() && b < NBUF && bufs[b].dev != 0 && bufs[b].valid && bufs[b].refcnt > 0
      modifies this`disk
      ensures Valid() && disk == old(disk)[KeyOf(bufs[b]) := bufs[b].data]
    {
      ghost var k := KeyOf(bufs[b]);
      assert BufOk(bufs[..][b], disk, latest);
      Changed(bufs[..], disk, latest, b, bufs[b], disk[k := bufs[b].data], latest);
      assert bufs[..][b := bufs[b]] == bufs[..];
      disk := disk[KeyOf(bufs[b]) := bufs[b].data];
    }

    /** A buffer may be given up only clean, that is written, or pinned by the log. */
    ghost predicate Releasable(b: nat)
      reads this, bufs
      requires b < bufs.Length
    {
      bufs[b].refcnt == 1 && bufs[b].valid && bufs[b].dev != 0 ==>
        KeyOf(bufs[b]) in disk && disk[KeyOf(bufs[b])] == bufs[b].data
    }

    method Unref(b: nat)
      requires Valid() && b < NBUF && bufs[b].refcnt > 0 && Releasable(b)
      modifies bufs
      ensures Valid() && bufs[..] == old(bufs[..])[b := old(bufs[b]).(refcnt := old(bufs[b]).refcnt - 1)]
    {
      assert BufOk(bufs[..][b], disk, latest);
      Changed(bufs[..], disk, latest, b, bufs[b].(refcnt := bufs[b].refcnt - 1), disk, latest);
      bufs[b] := bufs[b].(refcnt := bufs[b].refcnt - 1);
      assert bufs[..] == old(bufs[..])[b := bufs[b]];
    }

    /** Take buffer `b` off the list. */
    method TakeOff(b: nat)
      requires Listed() && b < NBUF
      modifies next, prev, this`order
      ensures Linked(next[..], prev[..], order, NBUF) && b !in order && Recent(order, stamp, clock)
      ensures forall c :: 0 <= c < NBUF && c != b ==> c in order
    {
      assert b in order;
      ghost var i :| 0 <= i < |order| && order[i] == b;
      Unlink(next[..], prev[..], order, NBUF, i);
      ghost var n: seq<nat>, p: seq<nat> := next[..], prev[..];
      prev[next[b]] := prev[b];
      next[prev[b]] := next[b];
      assert next[..] == n[p[b] := n[b]] && prev[..] == p[n[b] := p[b]];
      forall c | 0 <= c < NBUF && c != b ensures c in Without(order, i) { StillListed(order, i, c); }
      order := Without(order, i);
    }

    /** `brelse`: the last user's buffer moves to the front of the list. */
    method Brelse(b: nat)
      requires Valid() && b < NBUF && bufs[b].refcnt > 0 && Releasable(b)
      modifies bufs, next, prev, this`order, this`stamp, this`clock
      ensures Valid() && bufs[..] == old(bufs[..])[b := old(bufs[b]).(refcnt := old(bufs[b]).refcnt - 1)]
      ensures old(bufs[b]).refcnt > 1 ==> order == old(order) && stamp == old(stamp)
      ensures old(bufs[b]).refcnt == 1 ==> |order| > 0 && order[0] == b && stamp == old(stamp)[b := clock] && clock > old(clock)
    {
      Unref(b);
      if bufs[b].refcnt == 0 {
        TakeOff(b);
        RecentFront(order, stamp, stamp[b := clock + 1], clock, b, clock + 1);
        PushFront(b);
        clock := clock + 1;
        stamp := stamp[b := clock];
      }
    }

    method Bpin(b: nat)
      requires Valid() && b < NBUF && bufs[b].refcnt > 0
      modifies bufs
      ensures Valid() && bufs[..] == old(bufs[..])[b := old(bufs[b]).(refcnt := old(bufs[b]).refcnt + 1)]
    {
      assert BufOk(bufs[..][b], disk, latest);
      Changed(bufs[..], disk, latest, b, bufs[b].(refcnt := bufs[b].refcnt + 1), disk, latest);
      bufs[b] := bufs[b].(refcnt := bufs[b].refcnt + 1);
      assert bufs[..] == old(bufs[..])[b := bufs[b]];
    }

    /** `bunpin` leaves the buffer where it is on the list. */
    method Bunpin(b: nat)
      requires Valid() && b < NBUF && bufs[b].refcnt > 0 && Releasable(b)
      modifies bufs
      ensures Valid() && bufs[..] == old(bufs[..])[b := old(bufs[b]).(refcnt := old(bufs[b]).refcnt - 1)]
    {
      Unref(b);
    }
  }
}
