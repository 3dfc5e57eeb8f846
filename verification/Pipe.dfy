/**
 The pipe ring of pipe.c.  `nread` and `nwrite` are 32-bit counters that wrap;
 the ring is compared with the unbounded histories of bytes accepted by
 `pipewrite` and delivered by `piperead`.

 A call that sleeps gives up the lock in the middle of its loop, so the unit of
 interleaving is a section: from acquiring `pi->lock` to releasing it or
 sleeping.  User memory is a byte sequence and a count `reach` of the bytes
 that `copyin` or `copyout` manages before it fails.
 */
module Pipe {

  import opened Common

  const PIPESIZE: nat := 512
  const WRAP: nat := 0x1_0000_0000

  datatype Ring = Ring(data: seq<byte>, nread: nat, nwrite: nat)

  predicate Full(r: Ring) { r.nwrite == (r.nread + PIPESIZE) % WRAP }

  predicate Empty(r: Ring) { r.nread == r.nwrite }

  function Put(r: Ring, b: byte): Ring
    requires |r.data| == PIPESIZE
  {
    Ring(r.data[r.nwrite % PIPESIZE := b], r.nread, (r.nwrite + 1) % WRAP)
  }

  function Head(r: Ring): byte
    requires |r.data| == PIPESIZE
  {
    r.data[r.nread % PIPESIZE]
  }

  function Drop(r: Ring): Ring { r.(nread := (r.nread + 1) % WRAP) }

  // ------------------------------------------------------ the unbounded queue

  /** The ring holds the bytes accepted but not delivered, wherever the counters stand. */
  ghost predicate Queues(r: Ring, accepted: seq<byte>, delivered: seq<byte>, origin: nat) {
    && |r.data| == PIPESIZE
    && delivered <= accepted && |accepted| <= |delivered| + PIPESIZE
    && r.nread == (origin + |delivered|) % WRAP && r.nwrite == (origin + |accepted|) % WRAP
    && forall k :: |delivered| <= k < |accepted| ==> r.data[(origin + k) % PIPESIZE] == accepted[k]
  }

  lemma WrapIndex(a: nat)
    ensures (a % WRAP) % PIPESIZE == a % PIPESIZE
  {
    var q := a / WRAP;
    assert a == (q * (WRAP / PIPESIZE)) * PIPESIZE + a % WRAP;
    ModShift(a % WRAP, q * (WRAP / PIPESIZE));
  }

  lemma {:induction false} ModShift(x: nat, q: nat)
    ensures (q * PIPESIZE + x) % PIPESIZE == x % PIPESIZE
    decreases q
  {
    if q > 0 {
      ModShift(x, q - 1);
      assert q * PIPESIZE + x == ((q - 1) * PIPESIZE + x) + PIPESIZE;
    }
  }

  /** Counters compare as the true counts do, although they wrap. */
  lemma WrapCompare(a: nat, d: nat)
    requires d <= PIPESIZE
    ensures ((a + d) % WRAP == a % WRAP) <==> d == 0
    ensures ((a + d) % WRAP == (a % WRAP + PIPESIZE) % WRAP) <==> d == PIPESIZE
  {
    var x := a % WRAP;
    assert (a + d) % WRAP == if x + d < WRAP then x + d else x + d - WRAP;
  }

  lemma FullEmpty(r: Ring, accepted: seq<byte>, delivered: seq<byte>, origin: nat)
    requires Queues(r, accepted, delivered, origin)
    ensures Full(r) <==> |accepted| == |delivered| + PIPESIZE
    ensures Empty(r) <==> accepted == delivered
  {
    WrapCompare(origin + |delivered|, |accepted| - |delivered|);
    assert |accepted| == |delivered| ==> accepted == delivered;
  }

  lemma Successor(a: nat)
    ensures (a % WRAP + 1) % WRAP == (a + 1) % WRAP
  {
  }

  lemma OtherSlot(a: nat, d: nat)
    requires 0 < d < PIPESIZE
    ensures (a + d) % PIPESIZE != a % PIPESIZE
  {
    var x := a % PIPESIZE;
    assert (a + d) % PIPESIZE == if x + d < PIPESIZE then x + d else x + d - PIPESIZE;
  }

  /** A byte put into a ring that is not full is the next byte accepted. */
  lemma PutQueues(r: Ring, accepted: seq<byte>, delivered: seq<byte>, origin: nat, b: byte)
    requires Queues(r, accepted, delivered, origin) && !Full(r)
    ensures Queues(Put(r, b), accepted + [b], delivered, origin)
  {
    FullEmpty(r, accepted, delivered, origin);
    var n, r' := origin + |accepted|, Put(r, b);
    WrapIndex(n);
    Successor(n);
    forall k | |delivered| <= k < |accepted| + 1 ensures r'.data[(origin + k) % PIPESIZE] == (accepted + [b])[k] {
      if k < |accepted| { OtherSlot(origin + k, |accepted| - k); }
    }
  }

  /** The head of a ring that is not empty is the next byte to deliver. */
  lemma DropQueues(r: Ring, accepted: seq<byte>, delivered: seq<byte>, origin: nat)
    requires Queues(r, accepted, delivered, origin) && !Empty(r)
    ensures |delivered| < |accepted| && Head(r) == accepted[|delivered|]
    ensures Queues(Drop(r), accepted, delivered + [Head(r)], origin)
  {
    FullEmpty(r, accepted, delivered, origin);
    var n := origin + |delivered|;
    WrapIndex(n);
    Successor(n);
    assert delivered + [Head(r)] <= accepted;
  }

  // ---------------------------------------------------------------- any run

  datatype Op = Send(b: byte) | Receive

  /** What the ring does with an operation, and what it delivers; a full or empty ring blocks it. */
  function Step(r: Ring, op: Op): (Ring, seq<byte>)
    requires |r.data| == PIPESIZE
  {
    match op
    case Send(b) => if Full(r) then (r, []) else (Put(r, b), [])
    case Receive => if Empty(r) then (r, []) else (Drop(r), [Head(r)])
  }

  /** The same on a queue of the bytes in flight, of capacity PIPESIZE. */
  function QueueStep(q: seq<byte>, op: Op): (seq<byte>, seq<byte>) {
    match op
    case Send(b) => if |q| == PIPESIZE then (q, []) else (q + [b], [])
    case Receive => if q == [] then (q, []) else (q[1..], [q[0]])
  }

  function Output(r: Ring, ops: seq<Op>): seq<byte>
    requires |r.data| == PIPESIZE
    decreases |ops|
  {
    if ops == [] then [] else Step(r, ops[0]).1 + Output(Step(r, ops[0]).0, ops[1..])
  }

  function QueueOutput(q: seq<byte>, ops: seq<Op>): seq<byte>
    decreases |ops|
  {
    if ops == [] then [] else QueueStep(q, ops[0]).1 + QueueOutput(QueueStep(q, ops[0]).0, ops[1..])
  }

  /** Over any interleaving, with counters starting anywhere, the ring delivers what the queue delivers. */
  lemma {:induction false} RingIsQueue(r: Ring, accepted: seq<byte>, delivered: seq<byte>, origin: nat, ops: seq<Op>)
    requires Queues(r, accepted, delivered, origin)
    ensures Output(r, ops) == QueueOutput(accepted[|delivered|..], ops)
    decreases |ops|
  {
    if ops != [] {
      var q := accepted[|delivered|..];
      FullEmpty(r, accepted, delivered, origin);
      var r' := Step(r, ops[0]).0;
      match ops[0] {
        case Send(b) =>
          if Full(r) {
            RingIsQueue(r, accepted, delivered, origin, ops[1..]);
          } else {
            PutQueues(r, accepted, delivered, origin, b);
            assert (accepted + [b])[|delivered|..] == q + [b];
            RingIsQueue(r', accepted + [b], delivered, origin, ops[1..]);
          }
        case Receive =>
          if Empty(r) {
            RingIsQueue(r, accepted, delivered, origin, ops[1..]);
          } else {
            DropQueues(r, accepted, delivered, origin);
            assert accepted[|delivered + [Head(r)]|..] == q[1..];
            RingIsQueue(r', accepted, delivered + [Head(r)], origin, ops[1..]);
          }
      }
    }
  }

  // ----------------------------------------------------------------- the code

  datatype Outcome = Done | Asleep | Error

  class Pipe {
    const data: array<byte>
    var nread: nat
    var nwrite: nat
    var readopen: bool
    var writeopen: bool
    ghost var accepted: seq<byte>
    ghost var delivered: seq<byte>

    constructor ()
      ensures Valid() && fresh(data) && readopen && writeopen && accepted == delivered == []
    {
      data := new byte[PIPESIZE](_ => 0);
      nread, nwrite, readopen, writeopen := 0, 0, true, true;
      accepted, delivered := [], [];
    }

    ghost function View(): Ring
      reads this, data
    {
      Ring(data[..], nread, nwrite)
    }

    ghost predicate Valid()
      reads this, data
    {
      Queues(View(), accepted, delivered, 0)
    }

    method Close(writable: bool) returns (gone: bool)
      requires Valid()
      modifies this`readopen, this`writeopen
      ensures Valid() && gone == (!readopen && !writeopen)
      ensures writable ==> !writeopen && readopen == old(readopen)
      ensures !writable ==> !readopen && writeopen == old(writeopen)
    {
      if writable {
        writeopen := false;
      } else {
        readopen := false;
      }
      gone := !readopen && !writeopen;
    }

    method PutByte(b: byte)
      requires Valid() && !Full(View())
      modifies this`nwrite, this`accepted, data
      ensures Valid() && accepted == old(accepted) + [b]
    {
      PutQueues(View(), accepted, delivered, 0, b);
      data[nwrite % PIPESIZE] := b;
      nwrite := (nwrite + 1) % WRAP;
      accepted := accepted + [b];
      assert View() == Put(old(View()), b);
    }

    /** A section of `pipewrite` that resumes at byte `from` of `src`. */
    method WriteSection(src: seq<byte>, from: nat, reach: nat, killed: bool) returns (i: nat, out: Outcome)
      requires Valid() && from <= |src| && from <= reach
      modifies this`nwrite, this`accepted, data
      ensures Valid() && from <= i <= |src| && i <= reach
      ensures accepted == old(accepted) + src[from..i]
      ensures out == Error <==> i < |src| && (!readopen || killed)
      ensures out == Asleep ==> i < |src| && |accepted| == |delivered| + PIPESIZE
      ensures out == Done ==> i == |src| || i == reach
      ensures i > from ==> readopen && !killed
    {
      i, out := from, Done;
      while i < |src|
        invariant Valid() && from <= i <= |src| && i <= reach && out == Done
        invariant accepted == old(accepted) + src[from..i]
        invariant i > from ==> readopen && !killed
      {
        if !readopen || killed {
          out := Error;
          return;
        }
        FullEmpty(View(), accepted, delivered, 0);
        if nwrite == (nread + PIPESIZE) % WRAP {
          out := Asleep;
          return;
        }
        if i == reach {
          break;
        }
        PutByte(src[i]);
        assert src[from..i + 1] == src[from..i] + [src[i]];
        i := i + 1;
      }
    }

    /** A section of `piperead`: `got` is what reached the caller's memory. */
    method ReadSection(n: nat, reach: nat, killed: bool) returns (got: seq<byte>, out: Outcome)
      requires Valid()
      modifies this`nread, this`delivered
      ensures Valid() && |got| <= n && |got| <= reach
      ensures delivered == old(delivered) + got && delivered <= accepted
      ensures out == Asleep <==> old(accepted == delivered && writeopen) && !killed
      ensures out == Done ==> |got| == n || delivered == accepted || |got| == reach
      ensures out == Error ==> got == []
      ensures out == Error <==> (old(accepted == delivered && writeopen) && killed) || (n > 0 && reach == 0 && old(accepted != delivered))
    {
      got, out := [], Done;
      FullEmpty(View(), accepted, delivered, 0);
      if nread == nwrite && writeopen {
        out := if killed then Error else Asleep;
        return;
      }
      var i := 0;
      while i < n
        invariant Valid() && |got| == i <= n && i <= reach && out == Done
        invariant delivered == old(delivered) + got
      {
        FullEmpty(View(), accepted, delivered, 0);
        if nread == nwrite {
          break;
        }
        var ch := data[nread % PIPESIZE];
        if i == reach {
          if i == 0 {
            out := Error;
          }
          break;
        }
        DropQueues(View(), accepted, delivered, 0);
        nread := (nread + 1) % WRAP;
        delivered := delivered + [ch];
        got := got + [ch];
        i := i + 1;
      }
    }

    /** End of file: after the writer has closed, a reader never sleeps and gets what is left, in order, then nothing. */
    method CloseThenRead(n: nat) returns (gone: bool, got: seq<byte>)
      requires Valid()
      modifies this`readopen, this`writeopen, this`nread, this`delivered
      ensures Valid() && gone == !old(readopen) && accepted == old(accepted)
      ensures old(delivered) <= accepted && var left := accepted[|old(delivered)|..];
        got == if n < |left| then left[..n] else left
    {
      gone := Close(true);
      var out;
      got, out := ReadSection(n, n, false);
    }

    /** Broken pipe: after the reader has closed, a write of anything fails and accepts nothing. */
    method CloseThenWrite(src: seq<byte>, reach: nat, killed: bool) returns (gone: bool, out: Outcome)
      requires Valid()
      modifies this`readopen, this`writeopen, this`nwrite, this`accepted, data
      ensures Valid() && gone == !old(writeopen) && accepted == old(accepted)
      ensures out == if src == [] then Done else Error
    {
      gone := Close(false);
      var i;
      i, out := WriteSection(src, 0, reach, killed);
    }
  }
}
