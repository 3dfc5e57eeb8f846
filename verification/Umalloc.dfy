/**
 The user-level allocator of umalloc.c (section 8.7 of The C Programming
 Language, 2nd edition).  Addresses count units of one Header (16 bytes), so a
 pointer step in the code is a step of one here.  The headers' fields are the
 maps `ptr` and `size`; address 0 is the null pointer and `base` is the static
 header that sits below every region obtained from `sbrk`.

 The specification sees the free list as the sequence `fl` of its headers in
 address order from `base`, the blocks handed out as `live` (header to size in
 units), and the units obtained from `sbrk` as `arena`.
 */
module Umalloc {

  const HEADER: nat := 16
  const MIN_UNITS: nat := 4096

  // ---------------------------------------------------------- specification

  function Next(fl: seq<nat>, i: nat): nat
    requires i < |fl|
  {
    if i + 1 < |fl| then fl[i + 1] else fl[0]
  }

  /** One cycle in address order, starting at `base`; no two blocks touch. */
  ghost predicate Cycle(fl: seq<nat>, ptr: map<nat, nat>, size: map<nat, nat>, base: nat) {
    && 0 < |fl| && fl[0] == base
    && (forall i :: 0 <= i < |fl| ==> fl[i] in ptr && fl[i] in size)
    && size[base] == 0
    && (forall i :: 0 < i < |fl| ==> size[fl[i]] > 0)
    && (forall i, j {:trigger Gap(fl, size, i, j)} :: 0 <= i < j < |fl| ==> Gap(fl, size, i, j))
    && (forall i {:trigger Next(fl, i)} :: 0 <= i < |fl| ==> ptr[fl[i]] == Next(fl, i))
  }

  /** Block `i` ends before block `j` begins, and does not touch it. */
  ghost predicate Gap(fl: seq<nat>, size: map<nat, nat>, i: int, j: int) {
    && 0 <= i < |fl| && 0 <= j < |fl| && fl[i] in size
    && fl[i] + size[fl[i]] < fl[j]
  }

  ghost predicate Apart(a: nat, m: nat, b: nat, n: nat) {
    a + m <= b || b + n <= a
  }

  ghost predicate ApartFree(fl: seq<nat>, size: map<nat, nat>, i: int, b: nat, n: nat) {
    0 <= i < |fl| && fl[i] in size && Apart(fl[i], size[fl[i]], b, n)
  }

  ghost predicate ApartLive(live: map<nat, nat>, a: nat, b: nat, n: nat) {
    a in live && Apart(a, live[a], b, n)
  }

  /** A stretch of units above `base` that overlaps no free and no live block. */
  ghost predicate Loose(fl: seq<nat>, size: map<nat, nat>, live: map<nat, nat>, base: nat, b: nat, n: nat) {
    && b > base && n > 0
    && (forall i {:trigger ApartFree(fl, size, i, b, n)} :: 0 < i < |fl| ==> ApartFree(fl, size, i, b, n))
    && (forall a {:trigger ApartLive(live, a, b, n)} :: a in live ==> ApartLive(live, a, b, n))
  }

  /** Blocks handed out keep their headers and overlap nothing. */
  ghost predicate LiveOk(fl: seq<nat>, size: map<nat, nat>, live: map<nat, nat>, base: nat) {
    && (forall a :: a in live ==> a in size && size[a] == live[a])
    && (forall a {:trigger live - {a}} :: a in live ==> Loose(fl, size, live - {a}, base, a, live[a]))
  }

  ghost predicate InFree(fl: seq<nat>, size: map<nat, nat>, u: nat) {
    exists i :: 0 < i < |fl| && Holds(fl, size, i, u)
  }

  ghost predicate Holds(fl: seq<nat>, size: map<nat, nat>, i: int, u: nat) {
    0 <= i < |fl| && fl[i] in size && fl[i] <= u < fl[i] + size[fl[i]]
  }

  ghost predicate InLive(live: map<nat, nat>, u: nat) {
    exists a :: a in live && a <= u < a + live[a]
  }

  /** Nothing is lost or invented: `arena` is the free units, the live ones and a loose stretch. */
  ghost predicate Covers(arena: set<nat>, fl: seq<nat>, size: map<nat, nat>, live: map<nat, nat>, b: nat, n: nat) {
    forall u: nat :: u in arena <==> InFree(fl, size, u) || InLive(live, u) || b <= u < b + n
  }

  /** The units a request needs: the payload rounded up, and one header. */
  function Units(nbytes: nat): nat { (nbytes + HEADER - 1) / HEADER + 1 }

  lemma UnitsEnough(nbytes: nat)
    ensures (Units(nbytes) - 1) * HEADER >= nbytes
    ensures nbytes > 0 ==> (Units(nbytes) - 2) * HEADER < nbytes
  {
  }

  // ------------------------------------------------------- free-list surgery

  /** Dropping block `t + 1` from the list. */
  function Without(fl: seq<nat>, t: nat): seq<nat>
    requires t + 1 < |fl|
  {
    fl[..t + 1] + fl[t + 2..]
  }

  function With(fl: seq<nat>, t: nat, bp: nat): seq<nat>
    requires t < |fl|
  {
    fl[..t + 1] + [bp] + fl[t + 1..]
  }

  lemma Unlink(fl: seq<nat>, ptr: map<nat, nat>, size: map<nat, nat>, base: nat, t: nat)
    requires Cycle(fl, ptr, size, base) && t + 1 < |fl|
    ensures Cycle(Without(fl, t), ptr[fl[t] := ptr[fl[t + 1]]], size, base)
  {
    var fl', ptr' := Without(fl, t), ptr[fl[t] := ptr[fl[t + 1]]];
    forall i, j | 0 <= i < j < |fl'| ensures Gap(fl', size, i, j) {
      assert Gap(fl, size, if i <= t then i else i + 1, if j <= t then j else j + 1);
    }
    forall i | 0 <= i < |fl'| ensures ptr'[fl'[i]] == Next(fl', i) {
      var k := if i <= t then i else i + 1;
      assert ptr[fl[k]] == Next(fl, k) && ptr[fl[t + 1]] == Next(fl, t + 1);
      assert k < t ==> Gap(fl, size, k, t);
      assert t < k ==> Gap(fl, size, t, k);
    }
  }

  lemma LinkOrder(fl: seq<nat>, ptr: map<nat, nat>, size: map<nat, nat>, base: nat, t: nat, bp: nat)
    requires Cycle(fl, ptr, size, base) && t < |fl| && bp in size && size[bp] > 0
    requires fl[t] + size[fl[t]] < bp && (t + 1 < |fl| ==> bp + size[bp] < fl[t + 1])
    ensures var fl' := With(fl, t, bp);
            forall i, j {:trigger Gap(fl', size, i, j)} :: 0 <= i < j < |fl'| ==> Gap(fl', size, i, j)
  {
    var fl' := With(fl, t, bp);
    forall i, j | 0 <= i < j < |fl'| ensures Gap(fl', size, i, j) {
      if j == t + 1 {
        assert i == t || Gap(fl, size, i, t);
      } else if i == t + 1 {
        assert fl'[j] == fl[j - 1] && (j == t + 2 || Gap(fl, size, t + 1, j - 1));
      } else {
        assert Gap(fl, size, if i <= t then i else i - 1, if j <= t then j else j - 1);
      }
    }
  }

  lemma Link(fl: seq<nat>, ptr: map<nat, nat>, size: map<nat, nat>, base: nat, t: nat, bp: nat)
    requires Cycle(fl, ptr, size, base) && t < |fl| && bp in size && size[bp] > 0
    requires fl[t] + size[fl[t]] < bp && (t + 1 < |fl| ==> bp + size[bp] < fl[t + 1])
    ensures Cycle(With(fl, t, bp), ptr[bp := ptr[fl[t]]][fl[t] := bp], size, base)
  {
    LinkOrder(fl, ptr, size, base, t, bp);
    var fl', ptr' := With(fl, t, bp), ptr[bp := ptr[fl[t]]][fl[t] := bp];
    forall i | 0 <= i < |fl'|
      ensures fl'[i] in ptr' && fl'[i] in size && (i > 0 ==> size[fl'[i]] > 0) && ptr'[fl'[i]] == Next(fl', i)
    {
      if i == t {
      } else if i == t + 1 {
        assert ptr[fl[t]] == Next(fl, t);
      } else {
        var k := if i < t then i else i - 1;
        assert fl'[i] == fl[k] && ptr[fl[k]] == Next(fl, k) && Next(fl', i) == Next(fl, k);
        assert Gap(fl, size, if k < t then k else t, if k < t then t else k);
        assert Gap(fl', size, if i < t then i else t + 1, if i < t then t + 1 else i);
      }
    }
  }

  lemma Widen(fl: seq<nat>, ptr: map<nat, nat>, size: map<nat, nat>, base: nat, t: nat, n: nat)
    requires Cycle(fl, ptr, size, base) && 0 < t < |fl| && n > 0
    requires t + 1 < |fl| ==> fl[t] + n < fl[t + 1]
    ensures Cycle(fl, ptr, size[fl[t] := n], base)
  {
    var size' := size[fl[t] := n];
    assert Gap(fl, size, 0, t) && fl[t] != base;
    forall i, j | 0 <= i < j < |fl| ensures Gap(fl, size', i, j) {
      assert Gap(fl, size, i, j);
      assert i == t || Gap(fl, size, if i < t then i else t, if i < t then t else i);
      assert i == t && t + 1 < j ==> Gap(fl, size, t + 1, j);
    }
  }

  /** Only the headers on the list matter to it. */
  lemma SameCycle(fl: seq<nat>, ptr: map<nat, nat>, size: map<nat, nat>, ptr': map<nat, nat>, size': map<nat, nat>, base: nat)
    requires Cycle(fl, ptr, size, base)
    requires forall i :: 0 <= i < |fl| ==> fl[i] in ptr' && ptr'[fl[i]] == ptr[fl[i]]
    requires forall i :: 0 <= i < |fl| ==> fl[i] in size' && size'[fl[i]] == size[fl[i]]
    ensures Cycle(fl, ptr', size', base)
  {
    forall i, j | 0 <= i < j < |fl| ensures Gap(fl, size', i, j) { assert Gap(fl, size, i, j); }
  }

  /** A pointer left in a header off the list is harmless. */
  lemma SpareLink(fl: seq<nat>, ptr: map<nat, nat>, size: map<nat, nat>, base: nat, b: nat, p: nat, ptr': map<nat, nat>)
    requires Cycle(fl, ptr, size, base) && b !in fl && p in fl && b != p && ptr' == ptr[b := ptr[p]][p := ptr[p]]
    ensures Cycle(fl, ptr', size, base)
  {
    assert forall i :: 0 <= i < |fl| ==> fl[i] in fl;
    SameCycle(fl, ptr, size, ptr', size, base);
  }

  // ------------------------------------------------------------ unit by unit

  lemma UnitsWithout(fl: seq<nat>, size: map<nat, nat>, t: nat, u: nat)
    requires t + 1 < |fl|
    ensures InFree(fl, size, u) <==> InFree(Without(fl, t), size, u) || Holds(fl, size, t + 1, u)
  {
    var fl' := Without(fl, t);
    if InFree(fl, size, u) {
      var i :| 0 < i < |fl| && Holds(fl, size, i, u);
      assert i != t + 1 ==> Holds(fl', size, if i <= t then i else i - 1, u);
    }
    if InFree(fl', size, u) {
      var i :| 0 < i < |fl'| && Holds(fl', size, i, u);
      assert Holds(fl, size, if i <= t then i else i + 1, u);
    }
  }

  lemma UnitsWith(fl: seq<nat>, size: map<nat, nat>, t: nat, b: nat, u: nat)
    requires t < |fl| && b in size
    ensures InFree(With(fl, t, b), size, u) <==> InFree(fl, size, u) || b <= u < b + size[b]
  {
    var fl' := With(fl, t, b);
    assert Without(fl', t) == fl && fl'[t + 1] == b;
    UnitsWithout(fl', size, t, u);
  }

  /** Resizing block `t` from `m` to the larger `n` adds the units in between. */
  lemma UnitsResize(fl: seq<nat>, size: map<nat, nat>, t: nat, m: nat, n: nat, u: nat)
    requires 0 < t < |fl| && m <= n && forall i :: 0 <= i < |fl| && i != t ==> fl[i] != fl[t]
    ensures InFree(fl, size[fl[t] := n], u) <==> InFree(fl, size[fl[t] := m], u) || fl[t] + m <= u < fl[t] + n
  {
    if InFree(fl, size[fl[t] := n], u) {
      var i :| 0 < i < |fl| && Holds(fl, size[fl[t] := n], i, u);
      assert Holds(fl, size[fl[t] := m], i, u) || i == t;
    }
    if InFree(fl, size[fl[t] := m], u) {
      var i :| 0 < i < |fl| && Holds(fl, size[fl[t] := m], i, u);
      assert Holds(fl, size[fl[t] := n], i, u);
    }
    if fl[t] + m <= u < fl[t] + n {
      assert Holds(fl, size[fl[t] := n], t, u);
    }
  }

  lemma Distinct(fl: seq<nat>, ptr: map<nat, nat>, size: map<nat, nat>, base: nat, t: nat)
    requires Cycle(fl, ptr, size, base) && t < |fl|
    ensures forall i :: 0 <= i < |fl| && i != t ==> fl[i] != fl[t]
    ensures t > 0 ==> fl[t] > base
  {
    assert t > 0 ==> Gap(fl, size, 0, t);
    forall i | 0 <= i < |fl| && i != t ensures fl[i] != fl[t] {
      assert Gap(fl, size, if i < t then i else t, if i < t then t else i);
    }
  }

  lemma UnitsLive(live: map<nat, nat>, a: nat, u: nat)
    requires a in live
    ensures InLive(live, u) <==> InLive(live - {a}, u) || a <= u < a + live[a]
  {
    if InLive(live, u) {
      var x :| x in live && x <= u < x + live[x];
      assert x == a || x in live - {a};
    }
    if InLive(live - {a}, u) {
      var x :| x in live - {a} && x <= u < x + (live - {a})[x];
      assert x in live;
    }
  }

  // ----------------------------------------------- loose stretches of units

  /** A live block given up becomes loose. */
  lemma Abandon(arena: set<nat>, fl: seq<nat>, size: map<nat, nat>, live: map<nat, nat>, base: nat, a: nat)
    requires LiveOk(fl, size, live, base) && Covers(arena, fl, size, live, 0, 0) && a in live
    ensures var rest := live - {a};
            LiveOk(fl, size, rest, base) && Loose(fl, size, rest, base, a, live[a]) && Covers(arena, fl, size, rest, a, live[a])
  {
    var rest := live - {a};
    forall b | b in rest ensures Loose(fl, size, rest - {b}, base, b, rest[b]) {
      assert Loose(fl, size, live - {b}, base, b, live[b]);
      forall x | x in rest - {b} ensures ApartLive(rest - {b}, x, b, rest[b]) { assert ApartLive(live - {b}, x, b, live[b]); }
      forall i | 0 < i < |fl| ensures ApartFree(fl, size, i, b, rest[b]) { assert ApartFree(fl, size, i, b, live[b]); }
    }
    forall u: nat ensures u in arena <==> InFree(fl, size, u) || InLive(rest, u) || a <= u < a + live[a] {
      UnitsLive(live, a, u);
    }
  }

  /** A loose stretch under a header of its size becomes a live block. */
  lemma Adopt(arena: set<nat>, fl: seq<nat>, size: map<nat, nat>, live: map<nat, nat>, base: nat, a: nat, n: nat)
    requires LiveOk(fl, size, live, base) && Loose(fl, size, live, base, a, n) && Covers(arena, fl, size, live, a, n)
    requires a !in live && a in size && size[a] == n
    ensures LiveOk(fl, size, live[a := n], base) && Covers(arena, fl, size, live[a := n], 0, 0)
  {
    var more := live[a := n];
    assert more - {a} == live;
    forall b | b in more ensures Loose(fl, size, more - {b}, base, b, more[b]) {
      if b != a {
        assert Loose(fl, size, live - {b}, base, b, live[b]);
        forall i | 0 < i < |fl| ensures ApartFree(fl, size, i, b, more[b]) { assert ApartFree(fl, size, i, b, live[b]); }
        forall x | x in more - {b} ensures ApartLive(more - {b}, x, b, more[b]) {
          assert ApartLive(live, b, a, n);
          assert x != a ==> ApartLive(live - {b}, x, b, live[b]);
        }
      }
    }
    forall u: nat ensures u in arena <==> InFree(fl, size, u) || InLive(more, u) || 0 <= u < 0 + 0 {
      UnitsLive(more, a, u);
    }
  }

  /** No header of the list is the header of a loose stretch. */
  lemma NotListed(fl: seq<nat>, ptr: map<nat, nat>, size: map<nat, nat>, live: map<nat, nat>, base: nat, b: nat, n: nat)
    requires Cycle(fl, ptr, size, base) && Loose(fl, size, live, base, b, n)
    ensures b !in fl
  {
    forall i | 0 <= i < |fl| ensures fl[i] != b { assert i > 0 ==> ApartFree(fl, size, i, b, n); }
  }

  lemma LiveNotListed(fl: seq<nat>, ptr: map<nat, nat>, size: map<nat, nat>, live: map<nat, nat>, base: nat)
    requires Cycle(fl, ptr, size, base) && LiveOk(fl, size, live, base)
    ensures forall i :: 0 <= i < |fl| ==> fl[i] !in live
    ensures forall a :: a in live ==> live[a] > 0 && a > base
  {
    forall a | a in live ensures a !in fl && live[a] > 0 && a > base {
      assert Loose(fl, size, live - {a}, base, a, live[a]);
      NotListed(fl, ptr, size, live - {a}, base, a, live[a]);
    }
  }

  /** A list whose blocks lie inside the blocks of another keeps clear of what the other keeps clear of. */
  lemma InnerLoose(fl: seq<nat>, size: map<nat, nat>, fl': seq<nat>, size': map<nat, nat>, at: seq<nat>,
                   live: map<nat, nat>, base: nat, b: nat, n: nat)
    requires Loose(fl, size, live, base, b, n) && Inside(fl', size', fl, size, at)
    ensures Loose(fl', size', live, base, b, n)
  {
    forall i | 0 < i < |fl'| ensures ApartFree(fl', size', i, b, n) {
      assert ApartFree(fl, size, at[i], b, n);
    }
  }

  ghost predicate Inside(fl': seq<nat>, size': map<nat, nat>, fl: seq<nat>, size: map<nat, nat>, at: seq<nat>) {
    && |at| == |fl'|
    && forall i :: 0 < i < |fl'| ==>
         && 0 < at[i] < |fl| && fl[at[i]] in size && fl'[i] in size'
         && fl[at[i]] <= fl'[i] && fl'[i] + size'[fl'[i]] <= fl[at[i]] + size[fl[at[i]]]
  }

  lemma InnerLive(fl: seq<nat>, size: map<nat, nat>, fl': seq<nat>, size': map<nat, nat>, at: seq<nat>,
                  live: map<nat, nat>, base: nat)
    requires LiveOk(fl, size, live, base) && Inside(fl', size', fl, size, at)
    requires forall a :: a in live ==> a in size' && size'[a] == size[a]
    ensures LiveOk(fl', size', live, base)
  {
    forall a | a in live ensures Loose(fl', size', live - {a}, base, a, live[a]) {
      assert Loose(fl, size, live - {a}, base, a, live[a]);
      InnerLoose(fl, size, fl', size', at, live - {a}, base, a, live[a]);
    }
  }

  function Positions(n: nat, t: nat, skip: int): (at: seq<nat>)
    requires skip >= -1
    ensures |at| == n && forall i :: 0 <= i < n ==> at[i] == if i <= t then i else i + skip
  {
    if n == 0 then [] else Positions(n - 1, t, skip) + [if n - 1 <= t then n - 1 else n - 1 + skip]
  }

  // ------------------------------------------------------ the steps of `free`

  /** `bp` touches the next free block: swallow it. */
  lemma AbsorbNext(arena: set<nat>, fl: seq<nat>, ptr: map<nat, nat>, size: map<nat, nat>, live: map<nat, nat>,
                   base: nat, t: nat, bp: nat, n: nat)
    requires Cycle(fl, ptr, size, base) && LiveOk(fl, size, live, base)
    requires Loose(fl, size, live, base, bp, n) && Covers(arena, fl, size, live, bp, n)
    requires bp !in live && t + 1 < |fl| && fl[t] < bp && bp + n == fl[t + 1]
    ensures var n' := n + size[fl[t + 1]];
            var fl', size' := Without(fl, t), size[bp := n'];
            && Cycle(fl', ptr[fl[t] := ptr[fl[t + 1]]], size', base) && LiveOk(fl', size', live, base)
            && Loose(fl', size', live, base, bp, n') && Covers(arena, fl', size', live, bp, n')
            && (t + 1 < |fl'| ==> bp + n' < fl'[t + 1])
  {
    var next := fl[t + 1];
    var n' := n + size[next];
    var fl', ptr', size' := Without(fl, t), ptr[fl[t] := ptr[next]], size[bp := n'];
    NotListed(fl, ptr, size, live, base, bp, n);
    Unlink(fl, ptr, size, base, t);
    forall i | 0 <= i < |fl'| ensures fl'[i] in fl { assert fl'[i] == fl[if i <= t then i else i + 1]; }
    assert bp !in fl';
    var at := Positions(|fl'|, t, 1);
    SameCycle(fl', ptr', size, ptr', size', base);
    assert Inside(fl', size', fl, size, at) by {
      forall i | 0 < i < |fl'| ensures fl'[i] == fl[at[i]] && fl'[i] in size' && size'[fl'[i]] == size[fl[at[i]]] {
        assert at[i] == if i <= t then i else i + 1;
      }
    }
    InnerLive(fl, size, fl', size', at, live, base);
    assert t + 2 < |fl| ==> Gap(fl, size, t + 1, t + 2);
    forall i | 0 < i < |fl'| ensures ApartFree(fl', size', i, bp, n') {
      assert ApartFree(fl, size, at[i], bp, n);
      assert at[i] != t + 1 && Gap(fl, size, if at[i] < t + 1 then at[i] else t + 1, if at[i] < t + 1 then t + 1 else at[i]);
    }
    forall a | a in live ensures ApartLive(live, a, bp, n') {
      assert ApartLive(live, a, bp, n) && Loose(fl, size, live - {a}, base, a, live[a]);
      assert ApartFree(fl, size, t + 1, a, live[a]);
    }
    forall u: nat ensures u in arena <==> InFree(fl', size', u) || InLive(live, u) || bp <= u < bp + n' {
      UnitsWithout(fl, size, t, u);
      SameUnits(fl', size, size', u);
    }
  }

  lemma SameUnits(fl: seq<nat>, size: map<nat, nat>, size': map<nat, nat>, u: nat)
    requires forall i :: 0 <= i < |fl| ==> fl[i] in size && fl[i] in size' && size'[fl[i]] == size[fl[i]]
    ensures InFree(fl, size, u) <==> InFree(fl, size', u)
  {
    if InFree(fl, size, u) { var i :| 0 < i < |fl| && Holds(fl, size, i, u); assert Holds(fl, size', i, u); }
    if InFree(fl, size', u) { var i :| 0 < i < |fl| && Holds(fl, size', i, u); assert Holds(fl, size, i, u); }
  }

  /** `bp` touches the free block below: grow that block. */
  lemma GrowBelow(arena: set<nat>, fl: seq<nat>, ptr: map<nat, nat>, size: map<nat, nat>, live: map<nat, nat>,
                  base: nat, t: nat, bp: nat, n: nat)
    requires Cycle(fl, ptr, size, base) && LiveOk(fl, size, live, base)
    requires Loose(fl, size, live, base, bp, n) && Covers(arena, fl, size, live, bp, n)
    requires 0 < t < |fl| && fl[t] + size[fl[t]] == bp && (t + 1 < |fl| ==> bp + n < fl[t + 1])
    ensures var size' := size[fl[t] := size[fl[t]] + n];
            && Cycle(fl, ptr, size', base) && LiveOk(fl, size', live, base) && Covers(arena, fl, size', live, 0, 0)
  {
    var size' := size[fl[t] := size[fl[t]] + n];
    Widen(fl, ptr, size, base, t, size[fl[t]] + n);
    LiveNotListed(fl, ptr, size, live, base);
    Distinct(fl, ptr, size, base, t);
    forall a | a in live ensures Loose(fl, size', live - {a}, base, a, live[a]) {
      assert Loose(fl, size, live - {a}, base, a, live[a]);
      assert ApartLive(live, a, bp, n);
      forall i | 0 < i < |fl| ensures ApartFree(fl, size', i, a, live[a]) {
        assert ApartFree(fl, size, i, a, live[a]);
      }
    }
    assert size[fl[t] := size[fl[t]]] == size;
    forall u: nat ensures u in arena <==> InFree(fl, size', u) || InLive(live, u) || 0 <= u < 0 + 0 {
      UnitsResize(fl, size, t, size[fl[t]], size[fl[t]] + n, u);
    }
  }

  /** `bp` touches nothing: it becomes a free block of its own. */
  lemma Insert(arena: set<nat>, fl: seq<nat>, ptr: map<nat, nat>, size: map<nat, nat>, live: map<nat, nat>,
               base: nat, t: nat, bp: nat, n: nat)
    requires Cycle(fl, ptr, size, base) && LiveOk(fl, size, live, base)
    requires Loose(fl, size, live, base, bp, n) && Covers(arena, fl, size, live, bp, n) && bp in size && size[bp] == n
    requires t < |fl| && fl[t] + size[fl[t]] < bp && (t + 1 < |fl| ==> bp + n < fl[t + 1])
    ensures var fl' := With(fl, t, bp);
            && Cycle(fl', ptr[bp := ptr[fl[t]]][fl[t] := bp], size, base)
            && LiveOk(fl', size, live, base) && Covers(arena, fl', size, live, 0, 0)
  {
    var fl' := With(fl, t, bp);
    Link(fl, ptr, size, base, t, bp);
    forall a | a in live ensures Loose(fl', size, live - {a}, base, a, live[a]) {
      assert Loose(fl, size, live - {a}, base, a, live[a]);
      assert ApartLive(live, a, bp, n);
      forall i | 0 < i < |fl'| ensures ApartFree(fl', size, i, a, live[a]) {
        assert i != t + 1 ==> ApartFree(fl, size, if i <= t then i else i - 1, a, live[a]);
      }
    }
    forall u: nat ensures u in arena <==> InFree(fl', size, u) || InLive(live, u) || 0 <= u < 0 + 0 {
      UnitsWith(fl, size, t, bp, u);
    }
  }

  // ---------------------------------------------------- the steps of `malloc`

  /** A free block taken whole. */
  lemma TakeWhole(arena: set<nat>, fl: seq<nat>, ptr: map<nat, nat>, size: map<nat, nat>, live: map<nat, nat>,
                  base: nat, t: nat)
    requires Cycle(fl, ptr, size, base) && LiveOk(fl, size, live, base) && Covers(arena, fl, size, live, 0, 0)
    requires t + 1 < |fl|
    ensures var p, fl' := fl[t + 1], Without(fl, t);
            && p !in live && Loose(fl', size, live, base, p, size[p])
            && Cycle(fl', ptr[fl[t] := ptr[p]], size, base) && LiveOk(fl', size, live[p := size[p]], base)
            && Covers(arena, fl', size, live[p := size[p]], 0, 0)
  {
    var p: nat, fl', at := fl[t + 1], Without(fl, t), Positions(|fl| - 1, t, 1);
    Unlink(fl, ptr, size, base, t);
    LiveNotListed(fl, ptr, size, live, base);
    Distinct(fl, ptr, size, base, t + 1);
    assert Inside(fl', size, fl, size, at) by {
      forall i | 0 < i < |fl'| ensures fl'[i] == fl[at[i]] { assert at[i] == if i <= t then i else i + 1; }
    }
    InnerLive(fl, size, fl', size, at, live, base);
    forall i | 0 < i < |fl'| ensures ApartFree(fl', size, i, p, size[p]) {
      var k := if i <= t then i else i + 1;
      assert fl'[i] == fl[k] && Gap(fl, size, if k <= t then k else t + 1, if k <= t then t + 1 else k);
    }
    forall a | a in live ensures ApartLive(live, a, p, size[p]) {
      assert Loose(fl, size, live - {a}, base, a, live[a]) && ApartFree(fl, size, t + 1, a, live[a]);
    }
    forall u: nat ensures u in arena <==> InFree(fl', size, u) || InLive(live, u) || p <= u < p + size[p] {
      UnitsWithout(fl, size, t, u);
    }
    Adopt(arena, fl', size, live, base, p, size[p]);
  }

  /** Shrinking free block `t` leaves its tail loose. */
  lemma LoosenTail(fl: seq<nat>, ptr: map<nat, nat>, size: map<nat, nat>, live: map<nat, nat>, base: nat, t: nat, m: nat, n: nat)
    requires Cycle(fl, ptr, size, base) && LiveOk(fl, size, live, base)
    requires 0 < t < |fl| && 0 < n && 0 < m && size[fl[t]] == m + n
    ensures var q, size' := fl[t] + m, size[fl[t] := m][fl[t] + m := n];
            q !in live && q !in fl && Loose(fl, size', live, base, q, n) && Cycle(fl, ptr, size', base)
  {
    var p, q, size1, size' := fl[t], fl[t] + m, size[fl[t] := m], size[fl[t] := m][fl[t] + m := n];
    Distinct(fl, ptr, size, base, t);
    assert t + 1 < |fl| ==> Gap(fl, size, t, t + 1);
    Widen(fl, ptr, size, base, t, m);
    forall i | 0 <= i < |fl| ensures fl[i] != q && (i > 0 && i != t ==> Apart(fl[i], size[fl[i]], q, n)) {
      assert i != t ==> Gap(fl, size, if i < t then i else t, if i < t then t else i);
    }
    SameCycle(fl, ptr, size1, ptr, size', base);
    forall i | 0 < i < |fl| ensures ApartFree(fl, size', i, q, n) { }
    forall a | a in live ensures a != q && ApartLive(live, a, q, n) {
      assert Loose(fl, size, live - {a}, base, a, live[a]) && ApartFree(fl, size, t, a, live[a]);
    }
  }

  /** The tail of a free block, split off under a header of its own. */
  lemma TakeTail(arena: set<nat>, fl: seq<nat>, ptr: map<nat, nat>, size: map<nat, nat>, live: map<nat, nat>,
                 base: nat, t: nat, m: nat, n: nat)
    requires Cycle(fl, ptr, size, base) && LiveOk(fl, size, live, base) && Covers(arena, fl, size, live, 0, 0)
    requires 0 < t < |fl| && 0 < n && 0 < m && size[fl[t]] == m + n
    ensures var q, size' := fl[t] + m, size[fl[t] := m][fl[t] + m := n];
            && q !in live && q !in fl && Loose(fl, size', live, base, q, n)
            && Cycle(fl, ptr, size', base) && LiveOk(fl, size', live[q := n], base)
            && Covers(arena, fl, size', live[q := n], 0, 0)
  {
    var p, q, size1, size' := fl[t], fl[t] + m, size[fl[t] := m], size[fl[t] := m][fl[t] + m := n];
    LoosenTail(fl, ptr, size, live, base, t, m, n);
    LiveNotListed(fl, ptr, size, live, base);
    Distinct(fl, ptr, size, base, t);
    assert forall i :: 0 <= i < |fl| ==> fl[i] in fl;
    var at := Positions(|fl|, |fl|, 0);
    assert Inside(fl, size', fl, size, at);
    InnerLive(fl, size, fl, size', at, live, base);
    assert size[p := size[p]] == size;
    forall u: nat ensures u in arena <==> InFree(fl, size', u) || InLive(live, u) || q <= u < q + n {
      UnitsResize(fl, size, t, m, size[p], u);
      SameUnits(fl, size1, size', u);
    }
    Adopt(arena, fl, size', live, base, q, n);
  }

  /** Every unit belongs to one block only, free or live. */
  lemma OneOwner(fl: seq<nat>, ptr: map<nat, nat>, size: map<nat, nat>, live: map<nat, nat>, base: nat, u: nat)
    requires Cycle(fl, ptr, size, base) && LiveOk(fl, size, live, base)
    ensures !(InFree(fl, size, u) && InLive(live, u))
    ensures forall i, j :: 0 < i < |fl| && 0 < j < |fl| && Holds(fl, size, i, u) && Holds(fl, size, j, u) ==> i == j
    ensures forall a, b :: a in live && b in live && a <= u < a + live[a] && b <= u < b + live[b] ==> a == b
  {
    forall a, i | a in live && a <= u < a + live[a] && 0 < i < |fl| ensures !Holds(fl, size, i, u) {
      assert Loose(fl, size, live - {a}, base, a, live[a]) && ApartFree(fl, size, i, a, live[a]);
    }
    forall i, j | 0 < i < j < |fl| ensures !(Holds(fl, size, i, u) && Holds(fl, size, j, u)) {
      assert Gap(fl, size, i, j);
    }
    forall a, b | a in live && b in live && a != b && a <= u < a + live[a] ensures !(b <= u < b + live[b]) {
      assert Loose(fl, size, live - {a}, base, a, live[a]) && ApartLive(live - {a}, b, a, live[a]);
    }
  }

  const INT_MAX: int := 0x7fff_ffff

  /** What is left of an unsigned value passed as a 32-bit int. */
  function Int32(x: nat): int {
    var y := x % 0x1_0000_0000;
    if y > INT_MAX then y - 0x1_0000_0000 else y
  }

  /** What `sbrk` gets from `morecore`: it takes an int. */
  function SbrkArg(nu: nat): int { Int32(Region(nu) * HEADER) }

  /** `sbrk` is asked for the bytes that `morecore` goes on to free exactly up to this request size. */
  lemma SbrkArgument(nbytes: nat)
    requires nbytes < 0x1_0000_0000
    ensures SbrkArg(Units(nbytes)) == Region(Units(nbytes)) * HEADER <==> nbytes <= INT_MAX - 31
  {
  }

  /** Above it `sbrk` is told to shrink, or to add one unit where `morecore` frees 2^28 + 1. */
  lemma SbrkMisled()
    ensures SbrkArg(Units((INT_MAX - 30) as nat)) < 0
    ensures SbrkArg(Units(0xffff_ffff)) == HEADER && Region(Units(0xffff_ffff)) == 0x1000_0001
  {
  }

  // --------------------------------------------------------------- the heap

  class Heap {
    const base: nat
    var ptr: map<nat, nat>
    var size: map<nat, nat>
    var freep: nat
    ghost var fl: seq<nat>
    ghost var live: map<nat, nat>
    ghost var arena: set<nat>

    constructor (base: nat)
      requires base > 0
      ensures this.base == base && Valid() && live == map[] && arena == {}
    {
      this.base, freep := base, 0;
      ptr, size := map[], map[];
      fl, live, arena := [], map[], {};
    }

    ghost predicate Valid()
      reads this
    {
      && base > 0
      && (freep == 0 ==> live == map[] && arena == {})
      && (freep != 0 ==>
            && Cycle(fl, ptr, size, base) && freep in fl
            && LiveOk(fl, size, live, base) && Covers(arena, fl, size, live, 0, 0))
    }

    /** The search of `free`: stops at the free block below `bp` in address order. */
    method FindPlace(bp: nat) returns (p: nat, ghost t: nat)
      requires Cycle(fl, ptr, size, base) && freep in fl && bp > base && bp !in fl
      ensures t < |fl| && fl[t] == p && p < bp && (t + 1 < |fl| ==> bp < fl[t + 1])
    {
      ghost var goal := Below(fl, bp);
      p := freep;
      t :| 0 <= t < |fl| && fl[t] == freep;
      StopsAt(fl, ptr, size, base, bp, t, goal);
      while !(bp > p && bp < ptr[p])
        invariant 0 <= t < |fl| && fl[t] == p && Stops(bp, p, ptr) == (t == goal)
        decreases if t <= goal then goal - t else |fl| - t + goal
      {
        if p >= ptr[p] && (bp > p || bp < ptr[p]) {
          break;
        }
        assert ptr[fl[t]] == Next(fl, t);
        p := ptr[p];
        t := if t + 1 < |fl| then t + 1 else 0;
        StopsAt(fl, ptr, size, base, bp, t, goal);
      }
    }

    /** First half of `free`: join the block above if it touches, and point past it. */
    method JoinAbove(bp: nat, p: nat, ghost t: nat) returns (ghost links: map<nat, nat>)
      requires Cycle(fl, ptr, size, base) && LiveOk(fl, size, live, base) && t < |fl| && p == fl[t]
      requires bp in size && bp !in live && bp !in fl && Loose(fl, size, live, base, bp, size[bp])
      requires Covers(arena, fl, size, live, bp, size[bp])
      requires p < bp && (t + 1 < |fl| ==> bp < fl[t + 1])
      modifies this`ptr, this`size, this`fl
      ensures Cycle(fl, links, size, base) && LiveOk(fl, size, live, base) && t < |fl| && p == fl[t]
      ensures bp in size && size[bp] >= old(size[bp]) && bp !in fl && Loose(fl, size, live, base, bp, size[bp])
      ensures Covers(arena, fl, size, live, bp, size[bp])
      ensures t + 1 < |fl| ==> bp + size[bp] < fl[t + 1]
      ensures ptr == old(ptr)[bp := links[p]] && links == old(ptr)[p := links[p]]
    {
      links := ptr;
      assert ptr[fl[t]] == Next(fl, t);
      assert t + 1 < |fl| ==> ApartFree(fl, size, t + 1, bp, size[bp]);
      if bp + size[bp] == ptr[p] {
        AbsorbNext(arena, fl, ptr, size, live, base, t, bp, size[bp]);
        links := ptr[p := ptr[ptr[p]]];
        fl := Without(fl, t);
        size := size[bp := size[bp] + size[ptr[p]]];
        ptr := ptr[bp := ptr[ptr[p]]];
        assert forall i :: 0 <= i < |fl| ==> fl[i] in old(fl);
      } else {
        ptr := ptr[bp := ptr[p]];
      }
    }

    method GrowDown(bp: nat, p: nat, ghost t: nat, ghost links: map<nat, nat>)
      requires base > 0 && Cycle(fl, links, size, base) && LiveOk(fl, size, live, base) && t < |fl| && p == fl[t]
      requires bp in size && bp !in fl && Loose(fl, size, live, base, bp, size[bp])
      requires Covers(arena, fl, size, live, bp, size[bp])
      requires p + size[p] == bp && (t + 1 < |fl| ==> bp + size[bp] < fl[t + 1])
      requires p in ptr && ptr == links[bp := links[p]][p := ptr[p]]
      modifies this`ptr, this`size, this`freep
      ensures Valid() && freep != 0 && FitsAt(fl, size, t, old(size[bp]))
    {
      assert t > 0 ==> Gap(fl, size, 0, t);
      GrowBelow(arena, fl, links, size, live, base, t, bp, size[bp]);
      size := size[p := size[p] + size[bp]];
      ptr := ptr[p := ptr[bp]];
      SpareLink(fl, links, size, base, bp, p, ptr);
      freep := p;
    }

    method LinkIn(bp: nat, p: nat, ghost t: nat, ghost links: map<nat, nat>)
      requires base > 0 && Cycle(fl, links, size, base) && LiveOk(fl, size, live, base) && t < |fl| && p == fl[t]
      requires bp in size && bp !in fl && Loose(fl, size, live, base, bp, size[bp])
      requires Covers(arena, fl, size, live, bp, size[bp])
      requires p + size[p] < bp && (t + 1 < |fl| ==> bp + size[bp] < fl[t + 1])
      requires p in ptr && ptr == links[bp := links[p]][p := ptr[p]]
      modifies this`ptr, this`fl, this`freep
      ensures Valid() && freep != 0 && FitsAt(fl, size, t + 1, size[bp])
    {
      assert t > 0 ==> Gap(fl, size, 0, t);
      Insert(arena, fl, links, size, live, base, t, bp, size[bp]);
      ptr := ptr[p := bp];
      assert ptr == links[bp := links[p]][p := bp];
      fl := With(fl, t, bp);
      assert fl[t] == p && fl[t + 1] == bp;
      freep := p;
    }

    /** Second half of `free`: join the block below if it touches, else link the block in. */
    method JoinBelow(bp: nat, p: nat, ghost t: nat, ghost links: map<nat, nat>)
      requires base > 0 && Cycle(fl, links, size, base) && LiveOk(fl, size, live, base) && t < |fl| && p == fl[t]
      requires bp in size && bp !in fl && Loose(fl, size, live, base, bp, size[bp])
      requires Covers(arena, fl, size, live, bp, size[bp])
      requires p < bp && (t + 1 < |fl| ==> bp + size[bp] < fl[t + 1])
      requires p in ptr && ptr == links[bp := links[p]][p := ptr[p]]
      modifies this`ptr, this`size, this`fl, this`freep
      ensures Valid() && freep != 0 && exists i :: FitsAt(fl, size, i, old(size[bp]))
    {
      assert t > 0 ==> ApartFree(fl, size, t, bp, size[bp]);
      if p + size[p] == bp {
        GrowDown(bp, p, t, links);
      } else {
        LinkIn(bp, p, t, links);
      }
    }

    /** The body of `free`, for a loose block under header `bp`. */
    method Release(bp: nat)
      requires base > 0 && Cycle(fl, ptr, size, base) && freep in fl && LiveOk(fl, size, live, base)
      requires bp in size && bp !in live && Loose(fl, size, live, base, bp, size[bp])
      requires Covers(arena, fl, size, live, bp, size[bp])
      modifies this`ptr, this`size, this`fl, this`freep
      ensures Valid() && freep != 0 && Fits(fl, size, old(size[bp]))
    {
      NotListed(fl, ptr, size, live, base, bp, size[bp]);
      var p, t := FindPlace(bp);
      ghost var links := JoinAbove(bp, p, t);
      ghost var size0 := size[bp];
      JoinBelow(bp, p, t, links);
      ghost var i :| FitsAt(fl, size, i, size0);
      assert FitsAt(fl, size, i, old(size[bp]));
    }

    /** `free`: the block stops being live; its units stay in the arena. */
    method Free(ap: nat)
      requires Valid() && ap > 0 && ap - 1 in live
      modifies this`ptr, this`size, this`fl, this`freep, this`live
      ensures Valid() && live == old(live) - {ap - 1}
    {
      Abandon(arena, fl, size, live, base, ap - 1);
      live := live - {ap - 1};
      Release(ap - 1);
    }

    /** `morecore`: obtain units from `sbrk(SbrkArg(nu))` (`grant` 0 means it failed) and free them. */
    method Morecore(nu: nat, grant: nat) returns (p: nat)
      requires Valid() && freep != 0 && nu > 0 && SbrkArg(nu) == Region(nu) * HEADER
      requires grant != 0 ==> Granted(arena, base, grant, SbrkArg(nu))
      modifies this`ptr, this`size, this`fl, this`freep, this`arena
      ensures Valid() && freep != 0
      ensures grant == 0 ==> p == 0 && arena == old(arena) && fl == old(fl) && ptr == old(ptr) && size == old(size) && freep == old(freep)
      ensures grant != 0 ==> p == freep && arena == old(arena) + Stretch(grant, Region(nu)) && Fits(fl, size, nu)
    {
      var n := if nu < MIN_UNITS then MIN_UNITS else nu;
      if grant == 0 {
        return 0;
      }
      FreshLoose(arena, fl, ptr, size, live, base, grant, n);
      Settle(arena, fl, ptr, size, live, base, grant, n);
      size := size[grant := n];
      arena := arena + Stretch(grant, n);
      Release(grant);
      ghost var i :| 0 <= i < |fl| && FitsAt(fl, size, i, n);
      assert FitsAt(fl, size, i, nu);
      p := freep;
    }

    /** Unlink the free block `p` after `prevp`. */
    method CutWhole(prevp: nat, p: nat, ghost i: nat)
      requires Valid() && freep != 0 && i + 1 < |fl| && fl[i] == prevp && fl[i + 1] == p
      modifies this`ptr, this`fl, this`live, this`freep
      ensures Valid() && freep == prevp != 0 && p > 0 && p !in old(live) && p in size && live == old(live)[p := size[p]]
      ensures forall a :: a in old(live) ==> Apart(a, old(live)[a], p, size[p])
    {
      assert Gap(fl, size, 0, i + 1) && (i > 0 ==> Gap(fl, size, 0, i));
      TakeWhole(arena, fl, ptr, size, live, base, i);
      assert forall a :: a in live ==> ApartLive(live, a, p, size[p]);
      ptr := ptr[prevp := ptr[p]];
      fl := Without(fl, i);
      assert fl[i] == prevp;
      live := live[p := size[p]];
      freep := prevp;
    }

    /** Split `nunits` off the end of the free block `p` after `prevp`. */
    method CutTail(prevp: nat, p: nat, ghost i: nat, nunits: nat) returns (q: nat)
      requires Valid() && freep != 0 && i + 1 < |fl| && fl[i] == prevp && fl[i + 1] == p
      requires p in size && size[p] > nunits > 0
      modifies this`size, this`live, this`freep
      ensures Valid() && freep == prevp != 0 && q > 0 && q !in old(live) && live == old(live)[q := nunits]
      ensures forall a :: a in old(live) ==> Apart(a, old(live)[a], q, nunits)
    {
      assert Gap(fl, size, 0, i + 1) && (i > 0 ==> Gap(fl, size, 0, i));
      TakeTail(arena, fl, ptr, size, live, base, i + 1, size[p] - nunits, nunits);
      size := size[p := size[p] - nunits];
      q := p + size[p];
      size := size[q := nunits];
      assert forall a :: a in live ==> ApartLive(live, a, q, nunits);
      live := live[q := nunits];
      freep := prevp;
    }

    method Cut(prevp: nat, p: nat, ghost i: nat, nunits: nat) returns (q: nat)
      requires Valid() && freep != 0 && i + 1 < |fl| && fl[i] == prevp && fl[i + 1] == p
      requires p in size && size[p] >= nunits > 0
      modifies this`ptr, this`size, this`fl, this`live, this`freep
      ensures Valid() && q > 0 && q !in old(live) && live == old(live)[q := nunits]
      ensures forall a :: a in old(live) ==> Apart(a, old(live)[a], q, nunits)
    {
      q := p;
      if size[p] == nunits {
        CutWhole(prevp, p, i);
      } else {
        q := CutTail(prevp, p, i, nunits);
      }
    }

    /** The first call of `malloc` makes a list of just `base`. */
    method Start()
      requires Valid()
      modifies this`ptr, this`size, this`fl, this`freep
      ensures Valid() && freep != 0
      ensures old(freep) != 0 ==> fl == old(fl) && ptr == old(ptr) && size == old(size) && freep == old(freep)
    {
      if freep == 0 {
        freep := base;
        ptr := ptr[base := base];
        size := size[base := 0];
        fl := [base];
        assert forall u: nat :: !InFree(fl, size, u) && !InLive(live, u);
      }
    }

    /** The search loop of `malloc`: one lap, and a second after `morecore`. */
    method Search(nunits: nat, grant: nat) returns (p: nat)
      requires Valid() && freep != 0 && nunits > 0 && SbrkArg(nunits) == Region(nunits) * HEADER
      requires grant != 0 ==> Granted(arena, base, grant, SbrkArg(nunits))
      modifies this
      ensures Valid()
      ensures p == 0 ==> grant == 0 && live == old(live) && arena == old(arena)
      ensures p != 0 ==> p !in old(live) && live == old(live)[p := nunits]
      ensures p != 0 ==> forall a :: a in old(live) ==> Apart(a, old(live)[a], p, nunits)
      ensures arena == old(arena) || (!old(Fits(fl, size, nunits)) && grant != 0 && arena == old(arena) + Stretch(grant, Region(nunits)))
      ensures old(Fits(fl, size, nunits)) ==> p != 0
    {
      var prevp := freep;
      ghost var f :| 0 <= f < |fl| && fl[f] == freep;
      ghost var i := f;
      ghost var grown := false;
      assert ptr[fl[i]] == Next(fl, i);
      p := ptr[prevp];
      while true
        invariant Valid() && freep != 0 && live == old(live)
        invariant 0 <= f < |fl| && fl[f] == freep && 0 <= i < |fl| && fl[i] == prevp && p == Next(fl, i)
        invariant !grown ==> arena == old(arena) && fl == old(fl) && size == old(size)
        invariant grown ==> !old(Fits(fl, size, nunits)) && grant != 0 && Fits(fl, size, nunits)
        invariant grown ==> arena == old(arena) + Stretch(grant, Region(nunits))
        invariant Passed(fl, size, f, i, nunits)
        decreases !grown, if i >= f then |fl| - i + f else f - i
      {
        ghost var j := if i + 1 < |fl| then i + 1 else 0;
        Distinct(fl, ptr, size, base, j);
        assert p == fl[j] && FitsAt(fl, size, j, nunits) == (size[p] >= nunits);
        if size[p] >= nunits {
          p := Cut(prevp, p, i, nunits);
          return;
        }
        if p == freep {
          assert !Fits(fl, size, nunits) by { NoneFits(fl, size, f, i, nunits); }
          p := Morecore(nunits, grant);
          if p == 0 {
            return;
          }
          grown := true;
          f :| 0 <= f < |fl| && fl[f] == freep;
          i := f;
        } else {
          i := j;
        }
        assert ptr[fl[i]] == Next(fl, i);
        prevp := p;
        p := ptr[p];
      }
    }

    /**
     `malloc`.  A null result means that no free block fits and `sbrk` failed.
     Otherwise the block is new, holds the request, overlaps no live block, and
     `sbrk` was asked only if nothing fitted.  The bound is exact: SbrkArgument.
     */
    method Malloc(nbytes: nat, grant: nat) returns (r: nat)
      requires Valid() && nbytes <= INT_MAX - 31
      requires grant != 0 ==> Granted(arena, base, grant, SbrkArg(Units(nbytes)))
      modifies this
      ensures Valid()
      ensures r == 0 ==> grant == 0 && live == old(live) && arena == old(arena)
      ensures r != 0 ==> r - 1 !in old(live) && live == old(live)[r - 1 := Units(nbytes)]
      ensures r != 0 ==> (live[r - 1] - 1) * HEADER >= nbytes
      ensures r != 0 ==> forall a :: a in old(live) ==> Apart(a, old(live)[a], r - 1, Units(nbytes))
      ensures arena == old(arena) || (grant != 0 && arena == old(arena) + Stretch(grant, Region(Units(nbytes))))
      ensures old(freep != 0 && Fits(fl, size, Units(nbytes))) ==> r != 0 && arena == old(arena)
    {
      UnitsEnough(nbytes);
      SbrkArgument(nbytes);
      var nunits := (nbytes + HEADER - 1) / HEADER + 1;
      Start();
      var p := Search(nunits, grant);
      return if p == 0 then 0 else p + 1;
    }
  }

  /** Some free block is large enough. */
  ghost predicate Fits(fl: seq<nat>, size: map<nat, nat>, n: nat) {
    exists i :: 0 <= i < |fl| && FitsAt(fl, size, i, n)
  }

  ghost predicate FitsAt(fl: seq<nat>, size: map<nat, nat>, i: int, n: nat) {
    0 <= i < |fl| && fl[i] in size && size[fl[i]] >= n
  }

  /** The blocks passed since the search left block `f`, going round to block `i`, are too small. */
  ghost predicate Passed(fl: seq<nat>, size: map<nat, nat>, f: nat, i: nat, n: nat) {
    if i >= f then forall j :: f < j <= i ==> !FitsAt(fl, size, j, n)
    else
      && (forall j :: f < j < |fl| ==> !FitsAt(fl, size, j, n))
      && (forall j :: 0 <= j <= i ==> !FitsAt(fl, size, j, n))
  }

  lemma NoneFits(fl: seq<nat>, size: map<nat, nat>, f: nat, i: nat, n: nat)
    requires f < |fl| && i < |fl| && Passed(fl, size, f, i, n) && !FitsAt(fl, size, f, n)
    requires f == if i + 1 < |fl| then i + 1 else 0
    ensures !Fits(fl, size, n)
  {
  }

  /** How many units `morecore` asks for. */
  function Region(nu: nat): (r: nat)
    ensures r >= nu && r >= 4096 && (r == nu || r == 4096)
  {
    if nu < MIN_UNITS then MIN_UNITS else nu
  }

  function Stretch(g: nat, n: nat): (s: set<nat>)
    ensures forall u: nat :: u in s <==> g <= u < g + n
  {
    if n == 0 then {} else Stretch(g, n - 1) + {g + n - 1}
  }

  /** A region `sbrk` may return: above `base` and never handed out before. */
  ghost predicate Fresh(arena: set<nat>, base: nat, g: nat, n: nat) {
    g > base && arena !! Stretch(g, n)
  }

  /** What a successful `sbrk(arg)` returned: a fresh region of `arg` bytes. */
  ghost predicate Granted(arena: set<nat>, base: nat, g: nat, arg: int) {
    arg >= 0 && Fresh(arena, base, g, arg / HEADER)
  }

  lemma FreshLoose(arena: set<nat>, fl: seq<nat>, ptr: map<nat, nat>, size: map<nat, nat>, live: map<nat, nat>,
                   base: nat, g: nat, n: nat)
    requires Cycle(fl, ptr, size, base) && LiveOk(fl, size, live, base) && Covers(arena, fl, size, live, 0, 0)
    requires Fresh(arena, base, g, n) && n > 0
    ensures Loose(fl, size, live, base, g, n) && g !in live && g !in fl
    ensures Covers(arena + Stretch(g, n), fl, size, live, g, n)
  {
    LiveNotListed(fl, ptr, size, live, base);
    forall i | 0 < i < |fl| ensures ApartFree(fl, size, i, g, n) {
      var u := if fl[i] < g then g else fl[i];
      assert Holds(fl, size, i, u) ==> u in arena;
      assert u in Stretch(g, n) <==> g <= u < g + n;
    }
    forall a | a in live ensures ApartLive(live, a, g, n) {
      var u := if a < g then g else a;
      assert a <= u < a + live[a] ==> InLive(live, u);
      assert u in Stretch(g, n) <==> g <= u < g + n;
    }
    assert g in live ==> ApartLive(live, g, g, n);
    NotListed(fl, ptr, size, live, base, g, n);
  }

  /** Writing the header of a loose stretch disturbs nothing. */
  lemma Settle(arena: set<nat>, fl: seq<nat>, ptr: map<nat, nat>, size: map<nat, nat>, live: map<nat, nat>,
               base: nat, g: nat, n: nat)
    requires Cycle(fl, ptr, size, base) && LiveOk(fl, size, live, base) && Loose(fl, size, live, base, g, n)
    requires g !in live && g !in fl && Covers(arena + Stretch(g, n), fl, size, live, g, n)
    ensures var size' := size[g := n];
            && Cycle(fl, ptr, size', base) && LiveOk(fl, size', live, base) && Loose(fl, size', live, base, g, n)
            && Covers(arena + Stretch(g, n), fl, size', live, g, n)
  {
    var size', at := size[g := n], Positions(|fl|, |fl|, 0);
    assert forall i :: 0 <= i < |fl| ==> fl[i] in fl;
    SameCycle(fl, ptr, size, ptr, size', base);
    assert Inside(fl, size', fl, size, at);
    InnerLive(fl, size, fl, size', at, live, base);
    InnerLoose(fl, size, fl, size', at, live, base, g, n);
    forall u: nat ensures u in arena + Stretch(g, n) <==> InFree(fl, size', u) || InLive(live, u) || g <= u < g + n {
      SameUnits(fl, size, size', u);
    }
  }

  /** The two ways the search of `free` ends. */
  ghost predicate Stops(bp: nat, p: nat, ptr: map<nat, nat>)
    requires p in ptr
  {
    (bp > p && bp < ptr[p]) || (p >= ptr[p] && (bp > p || bp < ptr[p]))
  }

  lemma StopsAt(fl: seq<nat>, ptr: map<nat, nat>, size: map<nat, nat>, base: nat, bp: nat, i: nat, goal: nat)
    requires Cycle(fl, ptr, size, base) && i < |fl| && goal < |fl| && bp !in fl && bp > base
    requires fl[goal] < bp && (goal + 1 < |fl| ==> fl[goal + 1] >= bp)
    ensures Stops(bp, fl[i], ptr) <==> i == goal
  {
    assert ptr[fl[i]] == Next(fl, i);
    assert i == 0 || Gap(fl, size, 0, i);
    assert i + 1 == |fl| || (Gap(fl, size, i, i + 1) && fl[i + 1] in fl);
    if i < goal {
      assert i + 1 == goal || Gap(fl, size, i + 1, goal);
    } else if goal < i {
      assert goal + 1 == i || Gap(fl, size, goal + 1, i);
    }
  }

  /** The last free block below `bp`. */
  ghost function Below(fl: seq<nat>, bp: nat): (t: nat)
    requires 0 < |fl| && fl[0] < bp
    ensures t < |fl| && fl[t] < bp && (t + 1 < |fl| ==> fl[t + 1] >= bp)
  {
    if |fl| == 1 || fl[1] >= bp then 0 else 1 + Below(fl[1..], bp)
  }
}
