/**
 Block allocation, block maps and byte-level reads and writes of fs.c, and the
 chunked `filewrite` of file.c.  A locked in-memory inode stands for its copy
 on disk; `logged` collects the blocks passed to `log_write` in the current
 transaction.  Copies to and from the caller always succeed.
 */
module Fs {
  import opened Common
  import opened FsImage

  const BPB: nat := BSIZE * 8
  const IPB: nat := 16

  class Fs {
    const nmeta: nat                   // boot, super, log, inode and bitmap blocks
    const inodestart: nat
    const bmapstart: nat
    var bitmap: seq<bool>
    var blocks: seq<Block>
    var inodes: seq<Inode>
    var logged: set<nat>
    ghost var own: map<nat, Ref>

    /** Ownership and the bitmap agree, `loose` blocks aside, and files are mapped up to their sizes. */
    ghost predicate Consistent(loose: set<nat>)
      reads this
    {
      && |bitmap| == |blocks| < UINT
      && Owned(inodes, blocks, own, nmeta, 0, 0)
      && Marked(bitmap, own, loose)
      && Sized(inodes, blocks)
    }

    ghost predicate Valid()
      reads this
    {
      Consistent({})
    }

    function BitmapBlock(b: nat): nat { b / BPB + bmapstart }

    function InodeBlock(i: nat): nat { i / IPB + inodestart }

    /** Every block of data or bitmap that differs from these was passed to `log_write`. */
    ghost predicate Noted(bitmap0: seq<bool>, blocks0: seq<Block>)
      reads this
    {
      Changes(bitmap0, blocks0, bitmap, blocks, logged, bmapstart)
    }

    // ----------------------------------------------------------- the bitmap

    /** Mark free block `r` in use and zero it (the body of balloc's loops, with bzero). */
    method Take(r: nat)
      requires Valid() && r < |bitmap| && !bitmap[r]
      modifies this`bitmap, this`blocks, this`logged
      ensures bitmap == old(bitmap)[r := true] && blocks == old(blocks)[r := ZERO]
      ensures logged == old(logged) + {BitmapBlock(r), r}
      ensures |bitmap| <= BPB ==> BitmapBlock(r) == bmapstart
      ensures Consistent({r}) && r !in own && nmeta <= r
      ensures Extends(inodes, old(blocks), inodes, blocks)
      ensures forall q {:trigger Slot(inodes, blocks, q)} :: IsRef(inodes, q) ==> Slot(inodes, blocks, q) == Slot(inodes, old(blocks), q)
    {
      ZeroLoose(inodes, blocks, own, nmeta, r);
      bitmap := bitmap[r := true];
      logged := logged + {BitmapBlock(r)};
      blocks := blocks[r := ZERO];
      logged := logged + {r};
      SizedKept(inodes, old(blocks), inodes, blocks);
    }

    /** A zeroed block that was free, or 0 when every bit is set. */
    method Balloc() returns (r: nat)
      requires Valid()
      modifies this`bitmap, this`blocks, this`logged
      ensures r == 0 ==> bitmap == old(bitmap) && blocks == old(blocks) && logged == old(logged) && false !in bitmap
      ensures r != 0 ==> r < |old(bitmap)| && !old(bitmap)[r] && bitmap == old(bitmap)[r := true]
      ensures r != 0 ==> blocks == old(blocks)[r := ZERO]
      ensures r != 0 ==> logged == old(logged) + {BitmapBlock(r), r} && (|bitmap| <= BPB ==> BitmapBlock(r) == bmapstart)
      ensures r != 0 ==> Consistent({r}) && r !in own && nmeta <= r
      ensures r != 0 ==> Extends(inodes, old(blocks), inodes, blocks)
      ensures r != 0 ==>
        forall q {:trigger Slot(inodes, blocks, q)} :: IsRef(inodes, q) ==> Slot(inodes, blocks, q) == Slot(inodes, old(blocks), q)
      ensures old(logged) <= logged && Noted(old(bitmap), old(blocks))
    {
      var b := 0;
      while b < |bitmap|
        invariant 0 <= b
        invariant forall x :: 0 <= x < b && x < |bitmap| ==> bitmap[x]
      {
        var bi := 0;
        while bi < BPB && b + bi < |bitmap|
          invariant 0 <= bi <= BPB
          invariant forall x :: 0 <= x < b + bi && x < |bitmap| ==> bitmap[x]
        {
          if !bitmap[b + bi] {
            Take(b + bi);
            return b + bi;
          }
          bi := bi + 1;
        }
        b := b + BPB;
      }
      return 0;
    }

    // ---------------------------------------------------------- block maps

    /** Record loose block `b` at direct slot `bn` of inode `ip`. */
    method PutDirect(ip: nat, bn: nat, b: nat)
      requires Consistent({b}) && b !in own && nmeta <= b < |blocks| && ip < |inodes| && bn < NDIRECT
      requires inodes[ip].addrs[bn] == 0
      modifies this`inodes, this`own
      ensures Valid() && Extends(old(inodes), blocks, inodes, blocks)
      ensures inodes == old(inodes)[ip := old(inodes)[ip].(addrs := old(inodes)[ip].addrs[bn := b])]
      ensures own == old(own)[b := Direct(ip, bn)]
    {
      ghost var was := inodes;
      inodes := inodes[ip := inodes[ip].(addrs := inodes[ip].addrs[bn := b])];
      SetDirect(was, blocks, ip, bn, b);
      Assigned(was, blocks, own, nmeta, inodes, blocks, Direct(ip, bn), b);
      FillExtends(was, blocks, own, nmeta, inodes, blocks, Direct(ip, bn));
      SizedKept(was, blocks, inodes, blocks);
      own := own[b := Direct(ip, bn)];
    }

    method PutIndirect(ip: nat, b: nat)
      requires Consistent({b}) && b !in own && nmeta <= b < |blocks| && ip < |inodes| && blocks[b] == ZERO
      requires inodes[ip].addrs[NDIRECT] == 0
      modifies this`inodes, this`own
      ensures Valid() && Extends(old(inodes), blocks, inodes, blocks)
      ensures inodes == old(inodes)[ip := old(inodes)[ip].(addrs := old(inodes)[ip].addrs[NDIRECT := b])]
      ensures own == old(own)[b := Indirect(ip)]
    {
      ghost var was := inodes;
      inodes := inodes[ip := inodes[ip].(addrs := inodes[ip].addrs[NDIRECT := b])];
      SetIndirect(was, blocks, ip, b);
      Assigned(was, blocks, own, nmeta, inodes, blocks, Indirect(ip), b);
      FillExtends(was, blocks, own, nmeta, inodes, blocks, Indirect(ip));
      SizedKept(was, blocks, inodes, blocks);
      own := own[b := Indirect(ip)];
    }

    method PutEntry(ip: nat, k: nat, b: nat)
      requires Consistent({b}) && b !in own && nmeta <= b < |blocks| && ip < |inodes| && k < NINDIRECT
      requires inodes[ip].addrs[NDIRECT] != 0 && Slot(inodes, blocks, Entry(ip, k)) == 0
      modifies this`blocks, this`own
      ensures Valid() && Extends(inodes, old(blocks), inodes, blocks)
      ensures Slot(inodes, blocks, Entry(ip, k)) == b && own == old(own)[b := Entry(ip, k)]
      ensures blocks == old(blocks)[inodes[ip].addrs[NDIRECT] := blocks[inodes[ip].addrs[NDIRECT]]]
    {
      ghost var was := blocks;
      RefBlock(inodes, blocks, own, nmeta, Indirect(ip));
      var ind := inodes[ip].addrs[NDIRECT];
      SetEntry(inodes, blocks, own, nmeta, ip, k, b);
      blocks := blocks[ind := SetWord(blocks[ind], k, b)];
      Assigned(inodes, was, own, nmeta, inodes, blocks, Entry(ip, k), b);
      FillExtends(inodes, was, own, nmeta, inodes, blocks, Entry(ip, k));
      SizedKept(inodes, was, inodes, blocks);
      own := own[b := Entry(ip, k)];
    }

    /** The blocks a `bmap` call may log, when the bitmap has one block. */
    ghost function MapFootprint(ip: nat, addr: nat): set<nat>
      reads this
      requires ip < |inodes|
    {
      {bmapstart, inodes[ip].addrs[NDIRECT], addr}
    }

    method BmapDirect(ip: nat, bn: nat) returns (addr: nat)
      requires Valid() && ip < |inodes| && bn < NDIRECT
      modifies this`bitmap, this`blocks, this`inodes, this`own, this`logged
      ensures Valid() && Extends(old(inodes), old(blocks), inodes, blocks) && old(own.Keys) <= own.Keys
      ensures addr == inodes[ip].addrs[bn]
      ensures addr == 0 ==> false !in bitmap
      ensures old(inodes)[ip].addrs[bn] != 0 ==>
        inodes == old(inodes) && blocks == old(blocks) && bitmap == old(bitmap) && own == old(own) && logged == old(logged)
      ensures |bitmap| <= BPB ==> logged <= old(logged) + MapFootprint(ip, addr)
      ensures forall i :: 0 <= i < |inodes| && i != ip ==> inodes[i] == old(inodes)[i]
      ensures old(inodes)[ip].addrs[NDIRECT] != 0 ==> inodes[ip].addrs[NDIRECT] == old(inodes)[ip].addrs[NDIRECT]
      ensures old(logged) <= logged && Noted(old(bitmap), old(blocks))
    {
      ExtendsSelf(inodes, blocks, own, nmeta);
      addr := inodes[ip].addrs[bn];
      if addr == 0 {
        addr := Balloc();
        if addr == 0 {
          return;
        }
        ghost var mid := blocks;
        PutDirect(ip, bn, addr);
        ExtendsTrans(old(inodes), old(blocks), old(inodes), mid, inodes, blocks);
      }
    }

    /** The first part of `bmap` for an indirect block: load it, allocating if necessary. */
    method LoadIndirect(ip: nat) returns (ind: nat)
      requires Valid() && ip < |inodes|
      modifies this`bitmap, this`blocks, this`inodes, this`own, this`logged
      ensures Valid() && Extends(old(inodes), old(blocks), inodes, blocks) && old(own.Keys) <= own.Keys
      ensures ind == inodes[ip].addrs[NDIRECT]
      ensures ind == 0 ==> false !in bitmap
      ensures old(inodes)[ip].addrs[NDIRECT] != 0 ==>
        inodes == old(inodes) && blocks == old(blocks) && bitmap == old(bitmap) && own == old(own) && logged == old(logged)
      ensures |bitmap| <= BPB ==> logged <= old(logged) + {bmapstart, ind}
      ensures forall i :: 0 <= i < |inodes| && i != ip ==> inodes[i] == old(inodes)[i]
      ensures old(inodes)[ip].addrs[NDIRECT] != 0 ==> inodes[ip].addrs[NDIRECT] == old(inodes)[ip].addrs[NDIRECT]
      ensures old(logged) <= logged && Noted(old(bitmap), old(blocks))
    {
      ExtendsSelf(inodes, blocks, own, nmeta);
      ind := inodes[ip].addrs[NDIRECT];
      if ind == 0 {
        ind := Balloc();
        if ind == 0 {
          return;
        }
        ghost var mid := blocks;
        PutIndirect(ip, ind);
        ExtendsTrans(old(inodes), old(blocks), old(inodes), mid, inodes, blocks);
      }
    }

    /** The second part: the entry, allocating if necessary. */
    method LoadEntry(ip: nat, k: nat) returns (addr: nat)
      requires Valid() && ip < |inodes| && k < NINDIRECT && inodes[ip].addrs[NDIRECT] != 0
      modifies this`bitmap, this`blocks, this`own, this`logged
      ensures Valid() && Extends(inodes, old(blocks), inodes, blocks) && old(own.Keys) <= own.Keys
      ensures addr == Slot(inodes, blocks, Entry(ip, k))
      ensures addr == 0 ==> false !in bitmap
      ensures Slot(inodes, old(blocks), Entry(ip, k)) != 0 ==>
        blocks == old(blocks) && bitmap == old(bitmap) && own == old(own) && logged == old(logged)
      ensures |bitmap| <= BPB ==> logged <= old(logged) + MapFootprint(ip, addr)
      ensures old(logged) <= logged && Noted(old(bitmap), old(blocks))
    {
      ExtendsSelf(inodes, blocks, own, nmeta);
      RefBlock(inodes, blocks, own, nmeta, Indirect(ip));
      var ind := inodes[ip].addrs[NDIRECT];
      addr := Word(blocks[ind], k);
      if addr == 0 {
        addr := Balloc();
        if addr != 0 {
          assert Slot(inodes, blocks, Entry(ip, k)) == Slot(inodes, old(blocks), Entry(ip, k));
          ghost var mid := blocks;
          PutEntry(ip, k, addr);
          logged := logged + {ind};
          ExtendsTrans(inodes, old(blocks), inodes, mid, inodes, blocks);
        }
      }
    }

    method BmapIndirect(ip: nat, k: nat) returns (addr: nat)
      requires Valid() && ip < |inodes| && k < NINDIRECT
      modifies this`bitmap, this`blocks, this`inodes, this`own, this`logged
      ensures Valid() && Extends(old(inodes), old(blocks), inodes, blocks) && old(own.Keys) <= own.Keys
      ensures addr == Slot(inodes, blocks, Entry(ip, k))
      ensures addr == 0 ==> false !in bitmap
      ensures Slot(old(inodes), old(blocks), Entry(ip, k)) != 0 ==>
        inodes == old(inodes) && blocks == old(blocks) && bitmap == old(bitmap) && own == old(own) && logged == old(logged)
      ensures |bitmap| <= BPB ==> logged <= old(logged) + MapFootprint(ip, addr)
      ensures forall i :: 0 <= i < |inodes| && i != ip ==> inodes[i] == old(inodes)[i]
      ensures old(inodes)[ip].addrs[NDIRECT] != 0 ==> inodes[ip].addrs[NDIRECT] == old(inodes)[ip].addrs[NDIRECT]
      ensures old(logged) <= logged && Noted(old(bitmap), old(blocks))
    {
      var ind := LoadIndirect(ip);
      if ind == 0 {
        return 0;
      }
      ghost var inodes1, blocks1, bitmap1, logged1 := inodes, blocks, bitmap, logged;
      addr := LoadEntry(ip, k);
      ExtendsTrans(old(inodes), old(blocks), inodes1, blocks1, inodes, blocks);
      ChangesTrans(old(bitmap), old(blocks), bitmap1, blocks1, logged1, bitmap, blocks, logged, bmapstart);
    }

    /** `bmap`: the block recorded for block `bn` of the file, allocated if there was none. */
    method Bmap(ip: nat, bn: nat) returns (addr: nat, panic: bool)
      requires Valid() && ip < |inodes|
      modifies this`bitmap, this`blocks, this`inodes, this`own, this`logged
      ensures Valid() && Extends(old(inodes), old(blocks), inodes, blocks) && old(own.Keys) <= own.Keys
      ensures panic == (bn >= MAXFILE)
      ensures !panic ==> addr == Slot(inodes, blocks, RefOf(ip, bn)) && (addr == 0 ==> false !in bitmap)
      ensures panic || Slot(old(inodes), old(blocks), RefOf(ip, bn)) != 0 ==>
        inodes == old(inodes) && blocks == old(blocks) && bitmap == old(bitmap) && own == old(own) && logged == old(logged)
      ensures |bitmap| <= BPB ==> logged <= old(logged) + MapFootprint(ip, addr)
      ensures forall i :: 0 <= i < |inodes| && i != ip ==> inodes[i] == old(inodes)[i]
      ensures old(inodes)[ip].addrs[NDIRECT] != 0 ==> inodes[ip].addrs[NDIRECT] == old(inodes)[ip].addrs[NDIRECT]
      ensures old(logged) <= logged && Noted(old(bitmap), old(blocks))
    {
      panic := false;
      if bn < NDIRECT {
        addr := BmapDirect(ip, bn);
      } else if bn - NDIRECT < NINDIRECT {
        addr := BmapIndirect(ip, bn - NDIRECT);
      } else {
        ExtendsSelf(inodes, blocks, own, nmeta);
        addr, panic := 0, true;
      }
    }

    // ----------------------------------------------------------- truncation

    method Bfree(b: nat) returns (panic: bool)
      requires b < |bitmap|
      modifies this`bitmap, this`logged
      ensures panic == !old(bitmap)[b]
      ensures !panic ==> bitmap == old(bitmap)[b := false] && logged == old(logged) + {BitmapBlock(b)}
      ensures panic ==> bitmap == old(bitmap) && logged == old(logged)
    {
      panic := false;
      if !bitmap[b] {
        return true;
      }
      bitmap := bitmap[b := false];
      logged := logged + {BitmapBlock(b)};
    }

    /** The state in the middle of `itrunc`: file `ip` loses blocks, entries below `dk` first. */
    ghost predicate Truncating(ip: nat, dk: nat, was: map<nat, Ref>)
      reads this
    {
      && |bitmap| == |blocks| < UINT && ip < |inodes|
      && Owned(inodes, blocks, own, nmeta, ip, dk) && Marked(bitmap, own, {}) && Lost(was, own, ip)
    }

    /** The first loop of `itrunc`. */
    method TruncDirect(ip: nat, ghost was: map<nat, Ref>) returns (panic: bool)
      requires Truncating(ip, 0, was)
      modifies this`bitmap, this`inodes, this`own, this`logged
      ensures !panic && Truncating(ip, 0, was) && |inodes| == |old(inodes)| && |bitmap| == |old(bitmap)|
      ensures forall k :: 0 <= k < NDIRECT ==> inodes[ip].addrs[k] == 0
      ensures inodes[ip].addrs[NDIRECT] == old(inodes)[ip].addrs[NDIRECT]
      ensures forall j :: 0 <= j < |inodes| && j != ip ==> inodes[j] == old(inodes)[j]
      ensures old(logged) <= logged && Noted(old(bitmap), blocks)
    {
      panic := false;
      var i := 0;
      while i < NDIRECT
        invariant 0 <= i <= NDIRECT && Truncating(ip, 0, was) && |inodes| == |old(inodes)| && |bitmap| == |old(bitmap)|
        invariant forall k :: 0 <= k < i ==> inodes[ip].addrs[k] == 0
        invariant old(logged) <= logged && Noted(old(bitmap), blocks)
        invariant inodes[ip].addrs[NDIRECT] == old(inodes)[ip].addrs[NDIRECT]
        invariant forall j :: 0 <= j < |inodes| && j != ip ==> inodes[j] == old(inodes)[j]
      {
        if inodes[ip].addrs[i] != 0 {
          panic := DropDirect(ip, i, was);
          if panic {
            return;
          }
        }
        i := i + 1;
      }
    }

    method DropDirect(ip: nat, k: nat, ghost was: map<nat, Ref>) returns (panic: bool)
      requires Truncating(ip, 0, was) && k < NDIRECT && inodes[ip].addrs[k] != 0
      modifies this`bitmap, this`inodes, this`own, this`logged
      ensures !panic && Truncating(ip, 0, was) && |bitmap| == |old(bitmap)|
      ensures inodes == old(inodes)[ip := old(inodes)[ip].(addrs := old(inodes)[ip].addrs[k := 0])]
      ensures old(logged) <= logged && Noted(old(bitmap), blocks)
    {
      var b := inodes[ip].addrs[k];
      ghost var before := inodes;
      NothingDropped(inodes, blocks, own, nmeta, ip, 0);
      RefBlock(inodes, blocks, own, nmeta, Direct(ip, k));
      SetDirect(inodes, blocks, ip, k, 0);
      panic := Bfree(b);
      inodes := inodes[ip := inodes[ip].(addrs := inodes[ip].addrs[k := 0])];
      Emptied(before, blocks, own, nmeta, inodes, Direct(ip, k), b);
      own := own - {b};
      NothingDropped(inodes, blocks, own, nmeta, 0, ip);
    }

    /** One entry of the indirect block of `ip`, whose words are `a`. */
    method DropEntry(ip: nat, a: Block, j: nat, ghost was: map<nat, Ref>) returns (panic: bool)
      requires Truncating(ip, j, was) && j < NINDIRECT && inodes[ip].addrs[NDIRECT] != 0
      requires Slot(inodes, blocks, Entry(ip, j)) == Word(a, j)
      modifies this`bitmap, this`own, this`logged
      ensures !panic && Truncating(ip, j + 1, was) && |bitmap| == |old(bitmap)|
      ensures old(logged) <= logged && Noted(old(bitmap), blocks)
    {
      panic := false;
      EntryDropped(inodes, blocks, own, nmeta, ip, j, Word(a, j));
      if Word(a, j) != 0 {
        panic := Bfree(Word(a, j));
        own := own - {Word(a, j)};
      }
    }

    /** The indirect block itself, once its entries are dropped. */
    method DropIndirect(ip: nat, ghost was: map<nat, Ref>) returns (panic: bool)
      requires Truncating(ip, NINDIRECT, was) && inodes[ip].addrs[NDIRECT] != 0
      modifies this`bitmap, this`inodes, this`own, this`logged
      ensures !panic && Truncating(ip, 0, was) && |bitmap| == |old(bitmap)|
      ensures inodes == old(inodes)[ip := old(inodes)[ip].(addrs := old(inodes)[ip].addrs[NDIRECT := 0])]
      ensures old(logged) <= logged && Noted(old(bitmap), blocks)
    {
      var ind := inodes[ip].addrs[NDIRECT];
      IndirectDropped(inodes, blocks, own, nmeta, ip, ind);
      panic := Bfree(ind);
      inodes := inodes[ip := inodes[ip].(addrs := inodes[ip].addrs[NDIRECT := 0])];
      own := own - {ind};
      NothingDropped(inodes, blocks, own, nmeta, 0, ip);
    }

    /** The second part of `itrunc`: the entries of the indirect block, then the block itself. */
    method TruncIndirect(ip: nat, ghost was: map<nat, Ref>) returns (panic: bool)
      requires Truncating(ip, 0, was) && inodes[ip].addrs[NDIRECT] != 0
      modifies this`bitmap, this`inodes, this`own, this`logged
      ensures !panic && Truncating(ip, 0, was) && |bitmap| == |old(bitmap)|
      ensures inodes == old(inodes)[ip := old(inodes)[ip].(addrs := old(inodes)[ip].addrs[NDIRECT := 0])]
      ensures old(logged) <= logged && Noted(old(bitmap), blocks)
    {
      var ind := inodes[ip].addrs[NDIRECT];
      NothingDropped(inodes, blocks, own, nmeta, ip, 0);
      RefBlock(inodes, blocks, own, nmeta, Indirect(ip));
      var a := blocks[ind];
      var j := 0;
      while j < NINDIRECT
        invariant 0 <= j <= NINDIRECT && Truncating(ip, j, was) && |bitmap| == |old(bitmap)| && inodes == old(inodes)
        invariant old(logged) <= logged && Noted(old(bitmap), blocks)
      {
        ghost var bitmap1, logged1 := bitmap, logged;
        panic := DropEntry(ip, a, j, was);
        if panic {
          return;
        }
        ChangesTrans(old(bitmap), blocks, bitmap1, blocks, logged1, bitmap, blocks, logged, bmapstart);
        j := j + 1;
      }
      ghost var bitmap1, logged1 := bitmap, logged;
      panic := DropIndirect(ip, was);
      ChangesTrans(old(bitmap), blocks, bitmap1, blocks, logged1, bitmap, blocks, logged, bmapstart);
    }

    /**
     `itrunc`: the panic "freeing free block" cannot happen; the file ends up
     empty, its blocks and only its blocks become free, and every other file
     keeps its blocks and its bytes.
     */
    method Itrunc(ip: nat) returns (panic: bool)
      requires Valid() && ip < |inodes|
      modifies this`bitmap, this`inodes, this`own, this`logged
      ensures !panic && Valid() && |bitmap| == |old(bitmap)|
      ensures |inodes| == |old(inodes)| && inodes == old(inodes)[ip := Inode(inodes[ip].addrs, 0)]
      ensures forall k :: 0 <= k <= NDIRECT ==> inodes[ip].addrs[k] == 0
      ensures forall b: nat :: b < |bitmap| ==> (bitmap[b] <==> old(bitmap)[b] && !(b in old(own) && Of(old(own)[b], ip)))
      ensures old(logged) <= logged && Noted(old(bitmap), blocks) && InodeBlock(ip) in logged
    {
      ghost var was := own;
      NothingDropped(inodes, blocks, own, nmeta, 0, ip);
      panic := TruncDirect(ip, was);
      if panic {
        return;
      }
      if inodes[ip].addrs[NDIRECT] != 0 {
        panic := TruncIndirect(ip, was);
        if panic {
          return;
        }
      }
      NothingDropped(inodes, blocks, own, nmeta, ip, 0);
      Resized(inodes, blocks, own, nmeta, ip, 0);
      inodes := inodes[ip := inodes[ip].(size := 0)];
      logged := logged + {InodeBlock(ip)};
      forall j | 0 <= j < |inodes| && j != ip ensures MappedBelow(inodes, blocks, j, inodes[j].size) {
        OtherMapped(old(inodes), inodes, blocks, j);
      }
      forall b | b in own ensures !Of(own[b], ip) { OwnsNothing(inodes, blocks, own, nmeta, ip, b); }
    }

    // -------------------------------------------------------- bytes of files

    /** One turn of `readi`'s loop: `m` bytes from the block of byte `off`, which is mapped. */
    method ReadPiece(ip: nat, off: nat, m: nat) returns (piece: seq<byte>)
      requires Valid() && ip < |inodes| && off % BSIZE + m <= BSIZE && off / BSIZE < MAXFILE
      requires Slot(inodes, blocks, RefOf(ip, off / BSIZE)) != 0
      modifies this`bitmap, this`blocks, this`inodes, this`own, this`logged
      ensures inodes == old(inodes) && blocks == old(blocks) && bitmap == old(bitmap) && own == old(own) && logged == old(logged)
      ensures |piece| == m && Reads(inodes, blocks, ip, off, piece)
    {
      RefBlock(inodes, blocks, own, nmeta, RefOf(ip, off / BSIZE));
      var addr, panic := Bmap(ip, off / BSIZE);
      piece := blocks[addr][off % BSIZE..off % BSIZE + m];
      forall k: nat | k < m ensures (off + k) / BSIZE < MAXFILE && piece[k] == ByteAt(inodes, blocks, ip, off + k) {
        SameBlock(off, k);
      }
    }

    /** `readi`: exactly the bytes of the file that the request covers; nothing changes. */
    method Readi(ip: nat, off0: nat, n0: nat) returns (r: seq<byte>)
      requires Valid() && ip < |inodes| && off0 < UINT && n0 < UINT
      modifies this`bitmap, this`blocks, this`inodes, this`own, this`logged
      ensures inodes == old(inodes) && blocks == old(blocks) && bitmap == old(bitmap) && own == old(own) && logged == old(logged)
      ensures |r| == if off0 > inodes[ip].size || off0 + n0 >= UINT then 0
                     else if off0 + n0 > inodes[ip].size then inodes[ip].size - off0 else n0
      ensures MappedBelow(inodes, blocks, ip, inodes[ip].size) && Reads(inodes, blocks, ip, off0, r)
    {
      r := [];
      var size := inodes[ip].size;
      assert MappedBelow(inodes, blocks, ip, size);
      if off0 > size || (off0 + n0) % UINT < off0 {
        return;
      }
      var n := if off0 + n0 > size then size - off0 else n0;
      var tot, off := 0, off0;
      while tot < n
        invariant 0 <= tot <= n && off == off0 + tot && |r| == tot && Reads(inodes, blocks, ip, off0, r)
        invariant inodes == old(inodes) && blocks == old(blocks) && bitmap == old(bitmap) && own == old(own) && logged == old(logged)
      {
        assert Slot(inodes, blocks, RefOf(ip, off / BSIZE)) != 0;   // so `bmap` finds a block
        var m := if n - tot < BSIZE - off % BSIZE then n - tot else BSIZE - off % BSIZE;
        var piece := ReadPiece(ip, off, m);
        ReadsNext(inodes, blocks, ip, off0, r, piece);
        r := r + piece;
        tot, off := tot + m, off + m;
      }
    }

    /** Put `piece` over the bytes of block `addr`, the block of byte `off` of file `ip`. */
    method PutPiece(ip: nat, off: nat, addr: nat, piece: seq<byte>, ghost cur: nat)
      requires Valid() && ip < |inodes| && off % BSIZE + |piece| <= BSIZE && off + |piece| <= MAXFILE * BSIZE && off / BSIZE < MAXFILE
      requires addr == Slot(inodes, blocks, RefOf(ip, off / BSIZE)) != 0
      requires MappedBelow(inodes, blocks, ip, cur) && off <= cur
      modifies this`blocks, this`logged
      ensures Valid() && logged == old(logged) + {addr}
      ensures MappedBelow(inodes, blocks, ip, cur) && MappedBelow(inodes, blocks, ip, off + |piece|)
      ensures forall o :: 0 <= o < cur || 0 <= o < off + |piece| ==>
        ByteAt(inodes, blocks, ip, o) == if off <= o < off + |piece| then piece[o - off] else ByteAt(inodes, old(blocks), ip, o)
      ensures OthersKept(inodes, old(blocks), inodes, blocks, ip)
      ensures old(logged) <= logged && Noted(old(bitmap), old(blocks))
    {
      RefBlock(inodes, blocks, own, nmeta, RefOf(ip, off / BSIZE));
      var lo := off % BSIZE;
      var x: Block := blocks[addr][..lo] + piece + blocks[addr][lo + |piece|..];
      MappedGrows(inodes, blocks, ip, cur, off, |piece|);
      DataBytes(inodes, blocks, own, nmeta, ip, off / BSIZE, addr, x);
      blocks := blocks[addr := x];
      logged := logged + {addr};
      assert forall i :: 0 <= i < |inodes| ==> MappedBelow(inodes, old(blocks), i, inodes[i].size);
      forall o | 0 <= o < cur || 0 <= o < off + |piece|
        ensures ByteAt(inodes, blocks, ip, o) == if off <= o < off + |piece| then piece[o - off] else ByteAt(inodes, old(blocks), ip, o)
      {
        PieceByte(off, |piece|, o);
        assert Slot(inodes, old(blocks), RefOf(ip, o / BSIZE)) != 0;
        if o / BSIZE == off / BSIZE {
          assert x[o % BSIZE] == if off <= o < off + |piece| then piece[o - off] else old(blocks)[addr][o % BSIZE];
        }
      }
      forall i: nat, o: nat | i < |inodes| && i != ip && o < inodes[i].size
        ensures o / BSIZE < MAXFILE && ByteAt(inodes, blocks, i, o) == ByteAt(inodes, old(blocks), i, o)
      {
        assert MappedBelow(inodes, old(blocks), i, inodes[i].size);
        assert Slot(inodes, old(blocks), RefOf(i, o / BSIZE)) != 0;
      }
    }

    /** One turn of `writei`'s loop; 0 means that the disk is full. */
    method WritePiece(ip: nat, off: nat, piece: seq<byte>, ghost cur: nat) returns (addr: nat)
      requires Valid() && ip < |inodes| && off % BSIZE + |piece| <= BSIZE && off + |piece| <= MAXFILE * BSIZE && off / BSIZE < MAXFILE
      requires MappedBelow(inodes, blocks, ip, cur) && off <= cur
      modifies this`bitmap, this`blocks, this`inodes, this`own, this`logged
      ensures Valid() && |bitmap| == |old(bitmap)| && OthersKept(old(inodes), old(blocks), inodes, blocks, ip)
      ensures inodes[ip].size == old(inodes)[ip].size && MappedBelow(inodes, blocks, ip, cur)
      ensures addr == 0 ==> false !in bitmap && Holds(old(inodes), old(blocks), inodes, blocks, ip, cur, off, [])
      ensures addr != 0 ==> MappedBelow(inodes, blocks, ip, off + |piece|)
      ensures addr != 0 ==> Holds(old(inodes), old(blocks), inodes, blocks, ip, cur, off, piece)
      ensures |bitmap| <= BPB ==> logged <= old(logged) + MapFootprint(ip, addr)
      ensures old(inodes)[ip].addrs[NDIRECT] != 0 ==> inodes[ip].addrs[NDIRECT] == old(inodes)[ip].addrs[NDIRECT]
      ensures old(logged) <= logged && Noted(old(bitmap), old(blocks))
    {
      var panic;
      addr, panic := Bmap(ip, off / BSIZE);
      BytesKept(old(inodes), old(blocks), inodes, blocks, ip, cur);
      forall i: nat | i < |inodes| && i != ip
        ensures MappedBelow(inodes, blocks, i, inodes[i].size)
        ensures forall o :: 0 <= o < inodes[i].size ==> ByteAt(inodes, blocks, i, o) == ByteAt(old(inodes), old(blocks), i, o)
      {
        assert MappedBelow(old(inodes), old(blocks), i, old(inodes)[i].size);
        BytesKept(old(inodes), old(blocks), inodes, blocks, i, inodes[i].size);
      }
      if addr != 0 {
        ghost var bitmap1, blocks1, logged1 := bitmap, blocks, logged;
        PutPiece(ip, off, addr, piece, cur);
        ChangesTrans(old(bitmap), old(blocks), bitmap1, blocks1, logged1, bitmap, blocks, logged, bmapstart);
      }
    }

    /** Everything the `writei` of `touched` data blocks may log, with one bitmap block. */
    ghost function WriteFootprint(ip: nat, touched: seq<nat>): set<nat>
      reads this
      requires ip < |inodes|
    {
      Footprint(bmapstart, InodeBlock(ip), inodes[ip].addrs[NDIRECT], touched)
    }

    /** `tot` bytes of `src` are in place, over the image at the start of the write. */
    ghost predicate Progress(ip: nat, src: seq<byte>, off0: nat, tot: nat, inodes0: seq<Inode>, blocks0: seq<Block>,
                             logged0: set<nat>, touched: seq<nat>)
      reads this
    {
      && Valid() && Writing(inodes0, blocks0, inodes, blocks, ip, src, off0, tot)
      && Aligned(off0, tot, |src|, |touched|)
      && (|bitmap| <= BPB ==> logged <= logged0 + WriteFootprint(ip, touched))
    }

    /** `m` bytes more, or none (and 0 returned) because the disk is full. */
    method WriteMore(ip: nat, src: seq<byte>, off0: nat, tot: nat, m: nat, ghost inodes0: seq<Inode>, ghost blocks0: seq<Block>) returns (addr: nat)
      requires Valid() && Writing(inodes0, blocks0, inodes, blocks, ip, src, off0, tot)
      requires 0 < m <= |src| - tot && (off0 + tot) % BSIZE + m <= BSIZE && (off0 + tot) / BSIZE < MAXFILE && off0 + |src| <= MAXFILE * BSIZE
      modifies this`bitmap, this`blocks, this`inodes, this`own, this`logged
      ensures Valid() && |bitmap| == |old(bitmap)| && (addr == 0 ==> false !in bitmap)
      ensures Writing(inodes0, blocks0, inodes, blocks, ip, src, off0, if addr == 0 then tot else tot + m)
      ensures |bitmap| <= BPB ==> logged <= old(logged) + MapFootprint(ip, addr)
      ensures old(inodes)[ip].addrs[NDIRECT] != 0 ==> inodes[ip].addrs[NDIRECT] == old(inodes)[ip].addrs[NDIRECT]
      ensures old(logged) <= logged && Noted(old(bitmap), old(blocks))
    {
      var off := off0 + tot;
      ghost var cur := if inodes[ip].size < off then off else inodes[ip].size;
      ghost var inodes1, blocks1 := inodes, blocks;
      addr := WritePiece(ip, off, src[tot..tot + m], cur);
      if addr == 0 {
        WritingSame(inodes0, blocks0, inodes1, blocks1, inodes, blocks, ip, src, off0, tot);
      } else {
        WritingNext(inodes0, blocks0, inodes1, blocks1, inodes, blocks, ip, src, off0, tot, m);
      }
    }

    /** One turn of the loop: `m` bytes more, or none because the disk is full. */
    method WriteTurn(ip: nat, src: seq<byte>, off0: nat, tot: nat, ghost inodes0: seq<Inode>, ghost blocks0: seq<Block>,
                     ghost logged0: set<nat>, ghost touched: seq<nat>) returns (m: nat, ghost touched': seq<nat>)
      requires Progress(ip, src, off0, tot, inodes0, blocks0, logged0, touched) && tot < |src|
      modifies this`bitmap, this`blocks, this`inodes, this`own, this`logged
      ensures |bitmap| == |old(bitmap)| && m <= |src| - tot && (m == 0 ==> false !in bitmap)
      ensures Progress(ip, src, off0, tot + m, inodes0, blocks0, logged0, touched')
      ensures old(logged) <= logged && Noted(old(bitmap), old(blocks))
    {
      m := PieceSize(off0, tot, |src|, |touched|);
      ghost var inodes1, logged1 := inodes, logged;
      var addr := WriteMore(ip, src, off0, tot, m, inodes0, blocks0);
      touched' := touched + [addr];
      if addr == 0 {
        m, touched' := 0, touched;
      }
      if |bitmap| <= BPB {
        FootprintGrows(logged0, logged1, logged, bmapstart, InodeBlock(ip), inodes1[ip].addrs[NDIRECT], inodes[ip].addrs[NDIRECT], touched, addr);
      }
    }

    /** The loop of `writei`. */
    method WriteLoop(ip: nat, src: seq<byte>, off0: nat) returns (tot: nat, ghost touched: seq<nat>)
      requires Valid() && ip < |inodes| && off0 <= inodes[ip].size && off0 + |src| <= MAXFILE * BSIZE
      modifies this`bitmap, this`blocks, this`inodes, this`own, this`logged
      ensures |bitmap| == |old(bitmap)| && tot <= |src| && (tot < |src| ==> false !in bitmap)
      ensures Progress(ip, src, off0, tot, old(inodes), old(blocks), old(logged), touched)
      ensures old(logged) <= logged && Noted(old(bitmap), old(blocks))
    {
      tot, touched := 0, [];
      assert forall i :: 0 <= i < |inodes| ==> MappedBelow(inodes, blocks, i, inodes[i].size);
      while tot < |src|
        invariant |bitmap| == |old(bitmap)| && tot <= |src|
        invariant Progress(ip, src, off0, tot, old(inodes), old(blocks), old(logged), touched)
        invariant old(logged) <= logged && Noted(old(bitmap), old(blocks))
        decreases |src| - tot
      {
        ghost var bitmap1, blocks1, logged1 := bitmap, blocks, logged;
        var m, touched' := WriteTurn(ip, src, off0, tot, old(inodes), old(blocks), old(logged), touched);
        ChangesTrans(old(bitmap), old(blocks), bitmap1, blocks1, logged1, bitmap, blocks, logged, bmapstart);
        tot, touched := tot + m, touched';
        if m == 0 {
          break;
        }
      }
    }

    /** The end of `writei`: the size takes in the bytes written. */
    method GrowTo(ip: nat, src: seq<byte>, off: nat, tot: nat, ghost inodes0: seq<Inode>, ghost blocks0: seq<Block>)
      requires Valid() && Writing(inodes0, blocks0, inodes, blocks, ip, src, off, tot)
      modifies this`inodes
      ensures Valid() && |inodes| == |old(inodes)| && OthersKept(inodes0, blocks0, inodes, blocks, ip)
      ensures inodes[ip] == Inode(old(inodes)[ip].addrs, if off + tot > inodes0[ip].size then off + tot else inodes0[ip].size)
      ensures Holds(inodes0, blocks0, inodes, blocks, ip, inodes0[ip].size, off, src[..tot])
    {
      if off + tot > inodes[ip].size {
        Resized(inodes, blocks, own, nmeta, ip, off + tot);
        SizeBytes(inodes, blocks, ip, off + tot);
        inodes := inodes[ip := inodes[ip].(size := off + tot)];
      }
    }

    /**
     `writei` of `src` at `off`.  -1 for an offset beyond the end, a wrapped sum
     or a file too large, and then nothing changes.  Otherwise the first `r`
     bytes are written, all of them unless the disk is full; the file reads as
     before elsewhere and grows to their end; other files are untouched.
     */
    method Writei(ip: nat, src: seq<byte>, off: nat) returns (r: int, ghost touched: seq<nat>)
      requires Valid() && ip < |inodes| && off < UINT && |src| < UINT
      modifies this`bitmap, this`blocks, this`inodes, this`own, this`logged
      ensures Valid() && |bitmap| == |old(bitmap)| && -1 <= r <= |src|
      ensures r == -1 <==> off > old(inodes)[ip].size || off + |src| >= UINT || off + |src| > MAXFILE * BSIZE
      ensures r == -1 ==> inodes == old(inodes) && blocks == old(blocks) && bitmap == old(bitmap) && logged == old(logged) && touched == []
      ensures 0 <= r < |src| ==> false !in bitmap
      ensures r >= 0 ==> OthersKept(old(inodes), old(blocks), inodes, blocks, ip)
      ensures r >= 0 ==> inodes[ip].size == if off + r > old(inodes)[ip].size then off + r else old(inodes)[ip].size
      ensures r >= 0 ==> Holds(old(inodes), old(blocks), inodes, blocks, ip, old(inodes)[ip].size, off, src[..r])
      ensures FewBlocks(off, |src|, |touched|)
      ensures r >= 0 && |bitmap| <= BPB ==> logged <= old(logged) + WriteFootprint(ip, touched)
      ensures r >= 0 ==> InodeBlock(ip) in logged
      ensures old(logged) <= logged && Noted(old(bitmap), old(blocks))
    {
      touched := [];
      if off > inodes[ip].size || (off + |src|) % UINT < off {
        return -1, [];
      }
      if off + |src| > MAXFILE * BSIZE {
        return -1, [];
      }
      var tot, ts := WriteLoop(ip, src, off);
      touched := ts;
      GrowTo(ip, src, off, tot, old(inodes), old(blocks));
      logged := logged + {InodeBlock(ip)};
      return tot, ts;
    }

    /** What a write leaves behind is what a read of the same place returns. */
    method WriteThenRead(ip: nat, src: seq<byte>, off: nat) returns (r: int, back: seq<byte>)
      requires Valid() && ip < |inodes| && off < UINT && |src| < UINT
      modifies this`bitmap, this`blocks, this`inodes, this`own, this`logged
      ensures r >= 0 ==> r <= |src| && back == src[..r]
    {
      ghost var touched: seq<nat>;
      r, touched := Writei(ip, src, off);
      back := [];
      if r >= 0 {
        back := Readi(ip, off, r);
      }
    }

    /** A `writei` of at most three blocks in a transaction of its own. */
    method WriteSection(ip: nat, src: seq<byte>, off: nat) returns (r: int)
      requires Valid() && ip < |inodes| && off < UINT && |src| <= 3 * BSIZE
      modifies this`bitmap, this`blocks, this`inodes, this`own, this`logged
      ensures Valid() && |bitmap| == |old(bitmap)| && |inodes| == |old(inodes)| && -1 <= r <= |src|
      ensures r == -1 <==> Refused(old(inodes)[ip].size, off, |src|)
      ensures r == -1 ==> inodes == old(inodes) && blocks == old(blocks)
      ensures 0 <= r < |src| ==> false !in bitmap
      ensures r >= 0 ==> OthersKept(old(inodes), old(blocks), inodes, blocks, ip)
      ensures r >= 0 ==> inodes[ip].size == if off + r > old(inodes)[ip].size then off + r else old(inodes)[ip].size
      ensures r >= 0 ==> Holds(old(inodes), old(blocks), inodes, blocks, ip, old(inodes)[ip].size, off, src[..r])
      ensures |bitmap| <= BPB ==> |logged| <= MAXOPBLOCKS
      ensures Noted(old(bitmap), old(blocks)) && (r >= 0 ==> InodeBlock(ip) in logged)
    {
      logged := {};
      ghost var touched: seq<nat>;
      r, touched := Writei(ip, src, off);
      FootprintSmall(bmapstart, InodeBlock(ip), inodes[ip].addrs[NDIRECT], touched, logged, off, |src|);
    }

    /** One transaction of `filewrite`: `n` bytes of `src` from byte `i` on. */
    method WriteChunk(ip: nat, src: seq<byte>, off0: nat, i: nat, n: nat, ghost inodes0: seq<Inode>, ghost blocks0: seq<Block>) returns (r: int, done: nat)
      requires Valid() && ip < |inodes| && off0 < UINT && |src| < UINT && i + n <= |src| && 0 < n <= 3 * BSIZE
      requires Underway(inodes0, blocks0, inodes, blocks, ip, src, off0, i)
      modifies this`bitmap, this`blocks, this`inodes, this`own, this`logged
      ensures Valid() && |bitmap| == |old(bitmap)| && |inodes| == |old(inodes)| && -1 <= r <= n
      ensures done == (if r > 0 then i + r else i) && Underway(inodes0, blocks0, inodes, blocks, ip, src, off0, done)
      ensures |bitmap| <= BPB ==> |logged| <= MAXOPBLOCKS
      ensures r == -1 ==> ip < |inodes0| && Refused(inodes0[ip].size, off0, |src|)
      ensures 0 <= r < n ==> false !in bitmap
    {
      ghost var inodes1, blocks1 := inodes, blocks;
      r := WriteSection(ip, src[i..i + n], off0 + i);
      done := if r > 0 then i + r else i;
      if r >= 0 {
        ChunkDone(inodes0, blocks0, inodes1, blocks1, inodes, blocks, ip, src, off0, i, n, r);
      } else {
        RefusedFromStart(inodes0, blocks0, inodes1, blocks1, ip, src, off0, i, n);
      }
    }

    /** The loop of `filewrite`: chunks of at most three blocks, each in a transaction of its own.  `done` is how far f->off has moved. */
    method FileLoop(ip: nat, src: seq<byte>, off0: nat) returns (i: nat, done: nat, ghost sections: seq<set<nat>>)
      requires Valid() && ip < |inodes| && off0 < UINT && |src| < UINT
      modifies this`bitmap, this`blocks, this`inodes, this`own, this`logged
      ensures Valid() && |bitmap| == |old(bitmap)| && |inodes| == |old(inodes)|
      ensures i <= done <= |src| && (i == |src| <==> done == |src|)
      ensures Underway(old(inodes), old(blocks), inodes, blocks, ip, src, off0, done)
      ensures i < |src| ==> false !in bitmap || Refused(old(inodes)[ip].size, off0, |src|)
      ensures |bitmap| <= BPB ==> AllSmall(sections)
    {
      var max := (MAXOPBLOCKS - 1 - 1 - 2) / 2 * BSIZE;
      i, done, sections := 0, 0, [];
      while i < |src|
        invariant done == i <= |src| && Valid() && |bitmap| == |old(bitmap)| && |inodes| == |old(inodes)|
        invariant Underway(old(inodes), old(blocks), inodes, blocks, ip, src, off0, done)
        invariant |bitmap| <= BPB ==> AllSmall(sections)
        decreases |src| - i
      {
        var n1 := |src| - i;
        if n1 > max {
          n1 := max;
        }
        var r;
        r, done := WriteChunk(ip, src, off0, i, n1, old(inodes), old(blocks));
        sections := sections + [logged];
        if r != n1 {
          break;
        }
        i := i + r;
      }
    }

    /**
     The FD_INODE case of `filewrite`.  `sections` are the sets of blocks that its
     transactions log.  The bytes before the returned offset are in place, all of
     them exactly if the call succeeds; it fails only on a full disk, beyond the
     end of the file or for a file too large, and always in the last two cases.
     With one bitmap block no transaction exceeds MAXOPBLOCKS.
     */
    method FileWrite(ip: nat, src: seq<byte>, off0: nat) returns (ret: int, off: nat, ghost sections: seq<set<nat>>)
      requires Valid() && ip < |inodes| && off0 < UINT && |src| < UINT
      modifies this`bitmap, this`blocks, this`inodes, this`own, this`logged
      ensures Valid() && |bitmap| == |old(bitmap)| && |inodes| == |old(inodes)|
      ensures off0 <= off <= off0 + |src| && ret == (if off == off0 + |src| then |src| else -1)
      ensures Underway(old(inodes), old(blocks), inodes, blocks, ip, src, off0, off - off0)
      ensures ret == -1 ==> false !in bitmap || Refused(old(inodes)[ip].size, off0, |src|)
      ensures src != [] && Refused(old(inodes)[ip].size, off0, |src|) ==> ret == -1
      ensures |bitmap| <= BPB ==> AllSmall(sections)
    {
      var i, done;
      i, done, sections := FileLoop(ip, src, off0);
      off := off0 + done;
      if i == |src| && src != [] { AllWritten(old(inodes), old(blocks), inodes, blocks, ip, src, off0); }
      ret := if i == |src| then |src| else -1;
    }
  }

  ghost predicate Changes(bitmap0: seq<bool>, blocks0: seq<Block>, bitmap: seq<bool>, blocks: seq<Block>, logged: set<nat>, bmapstart: nat) {
    && |bitmap| == |bitmap0| && |blocks| == |blocks0|
    && (forall b: nat :: b < |blocks| && blocks[b] != blocks0[b] ==> b in logged)
    && (forall b: nat :: b < |bitmap| && bitmap[b] != bitmap0[b] ==> b / BPB + bmapstart in logged)
  }

  lemma ChangesTrans(bitmap0: seq<bool>, blocks0: seq<Block>, bitmap1: seq<bool>, blocks1: seq<Block>, logged1: set<nat>,
                     bitmap: seq<bool>, blocks: seq<Block>, logged: set<nat>, bmapstart: nat)
    requires Changes(bitmap0, blocks0, bitmap1, blocks1, logged1, bmapstart) && Changes(bitmap1, blocks1, bitmap, blocks, logged, bmapstart)
    requires logged1 <= logged
    ensures Changes(bitmap0, blocks0, bitmap, blocks, logged, bmapstart)
  {
  }

  /** `r` is the bytes of file `ip` from `off` on. */
  ghost predicate Reads(inodes: seq<Inode>, blocks: seq<Block>, ip: nat, off: nat, r: seq<byte>) {
    ip < |inodes| && forall k: nat :: k < |r| ==> (off + k) / BSIZE < MAXFILE && r[k] == ByteAt(inodes, blocks, ip, off + k)
  }

  lemma ReadsNext(inodes: seq<Inode>, blocks: seq<Block>, ip: nat, off: nat, r: seq<byte>, piece: seq<byte>)
    requires Reads(inodes, blocks, ip, off, r) && Reads(inodes, blocks, ip, off + |r|, piece)
    ensures Reads(inodes, blocks, ip, off, r + piece)
  {
    var all := r + piece;
    forall k: nat | k < |all| ensures (off + k) / BSIZE < MAXFILE && all[k] == ByteAt(inodes, blocks, ip, off + k) {
      if k < |r| {
        assert all[k] == r[k];
      } else {
        var j: nat, o: nat := k - |r|, off + |r|;
        assert all[k] == piece[j] && o + j == off + k;
        assert (o + j) / BSIZE < MAXFILE && piece[j] == ByteAt(inodes, blocks, ip, o + j);
      }
    }
  }

  /** Each of these transactions fits its budget. */
  ghost predicate AllSmall(sections: seq<set<nat>>) {
    forall k :: 0 <= k < |sections| ==> |sections[k]| <= MAXOPBLOCKS
  }

  /** A write of `n` bytes at `off` that no disk has room for: beyond the end, or too large a file. */
  predicate Refused(size: nat, off: nat, n: nat) {
    off > size || off + n >= UINT || off + n > MAXFILE * BSIZE
  }

  /** Everything a write to file `ip` leaves alone. */
  ghost predicate OthersKept(inodes0: seq<Inode>, blocks0: seq<Block>, inodes: seq<Inode>, blocks: seq<Block>, ip: nat) {
    && |inodes| == |inodes0|
    && (forall i :: 0 <= i < |inodes| && i != ip ==> inodes[i] == inodes0[i] && inodes[i].size <= MAXFILE * BSIZE)
    && (forall i: nat, o: nat {:trigger ByteAt(inodes, blocks, i, o)} :: i < |inodes| && i != ip && o < inodes[i].size ==>
          ByteAt(inodes, blocks, i, o) == ByteAt(inodes0, blocks0, i, o))
  }

  lemma KeptTrans(inodes0: seq<Inode>, blocks0: seq<Block>, inodes1: seq<Inode>, blocks1: seq<Block>,
                  inodes: seq<Inode>, blocks: seq<Block>, ip: nat)
    requires OthersKept(inodes0, blocks0, inodes1, blocks1, ip) && OthersKept(inodes1, blocks1, inodes, blocks, ip)
    ensures OthersKept(inodes0, blocks0, inodes, blocks, ip)
  {
    forall i: nat, o: nat | i < |inodes| && i != ip && o < inodes[i].size
      ensures ByteAt(inodes, blocks, i, o) == ByteAt(inodes0, blocks0, i, o)
    {
      assert ByteAt(inodes, blocks, i, o) == ByteAt(inodes1, blocks1, i, o);
    }
  }

  /** File `ip` reads as before up to `cur`, but for `data` from `off` on. */
  ghost predicate Holds(inodes0: seq<Inode>, blocks0: seq<Block>, inodes: seq<Inode>, blocks: seq<Block>,
                        ip: nat, cur: nat, off: nat, data: seq<byte>) {
    && ip < |inodes| && ip < |inodes0| && cur <= MAXFILE * BSIZE && off + |data| <= MAXFILE * BSIZE
    && (forall o :: off <= o < off + |data| ==> ByteAt(inodes, blocks, ip, o) == data[o - off])
    && (forall o :: 0 <= o < cur && !(off <= o < off + |data|) ==> ByteAt(inodes, blocks, ip, o) == ByteAt(inodes0, blocks0, ip, o))
  }

  /** A piece written right after `data` extends it. */
  lemma HoldsNext(inodes0: seq<Inode>, blocks0: seq<Block>, inodes1: seq<Inode>, blocks1: seq<Block>,
                  inodes: seq<Inode>, blocks: seq<Block>, ip: nat, size: nat, off: nat, data: seq<byte>, piece: seq<byte>)
    requires Holds(inodes0, blocks0, inodes1, blocks1, ip, size, off, data)
    requires Holds(inodes1, blocks1, inodes, blocks, ip, if size < off + |data| then off + |data| else size, off + |data|, piece)
    ensures Holds(inodes0, blocks0, inodes, blocks, ip, size, off, data + piece)
  {
  }

  /** `tot` bytes of `src` stand at `off` of file `ip`; nothing else differs from the start. */
  ghost predicate Writing(inodes0: seq<Inode>, blocks0: seq<Block>, inodes: seq<Inode>, blocks: seq<Block>,
                          ip: nat, src: seq<byte>, off: nat, tot: nat) {
    && ip < |inodes0| && OthersKept(inodes0, blocks0, inodes, blocks, ip)
    && tot <= |src| && off + |src| <= MAXFILE * BSIZE && off <= inodes0[ip].size
    && inodes[ip].size == inodes0[ip].size
    && MappedBelow(inodes, blocks, ip, inodes[ip].size) && MappedBelow(inodes, blocks, ip, off + tot)
    && Holds(inodes0, blocks0, inodes, blocks, ip, inodes[ip].size, off, src[..tot])
  }

  lemma WritingNext(inodes0: seq<Inode>, blocks0: seq<Block>, inodes1: seq<Inode>, blocks1: seq<Block>,
                    inodes: seq<Inode>, blocks: seq<Block>, ip: nat, src: seq<byte>, off: nat, tot: nat, m: nat)
    requires Writing(inodes0, blocks0, inodes1, blocks1, ip, src, off, tot) && tot + m <= |src|
    requires OthersKept(inodes1, blocks1, inodes, blocks, ip) && inodes[ip].size == inodes1[ip].size
    requires var cur := if inodes[ip].size < off + tot then off + tot else inodes[ip].size;
      && MappedBelow(inodes, blocks, ip, cur) && Holds(inodes1, blocks1, inodes, blocks, ip, cur, off + tot, src[tot..tot + m])
    requires m > 0 ==> MappedBelow(inodes, blocks, ip, off + tot + m)
    ensures Writing(inodes0, blocks0, inodes, blocks, ip, src, off, tot + m)
  {
    KeptTrans(inodes0, blocks0, inodes1, blocks1, inodes, blocks, ip);
    HoldsNext(inodes0, blocks0, inodes1, blocks1, inodes, blocks, ip, inodes[ip].size, off, src[..tot], src[tot..tot + m]);
    assert src[..tot] + src[tot..tot + m] == src[..tot + m];
  }

  /** A turn that found no block writes nothing. */
  lemma WritingSame(inodes0: seq<Inode>, blocks0: seq<Block>, inodes1: seq<Inode>, blocks1: seq<Block>,
                    inodes: seq<Inode>, blocks: seq<Block>, ip: nat, src: seq<byte>, off: nat, tot: nat)
    requires Writing(inodes0, blocks0, inodes1, blocks1, ip, src, off, tot)
    requires OthersKept(inodes1, blocks1, inodes, blocks, ip) && inodes[ip].size == inodes1[ip].size
    requires var cur := if inodes[ip].size < off + tot then off + tot else inodes[ip].size;
      && MappedBelow(inodes, blocks, ip, cur) && Holds(inodes1, blocks1, inodes, blocks, ip, cur, off + tot, [])
    ensures Writing(inodes0, blocks0, inodes, blocks, ip, src, off, tot)
  {
    assert src[tot..tot + 0] == [];
    WritingNext(inodes0, blocks0, inodes1, blocks1, inodes, blocks, ip, src, off, tot, 0);
  }

  /** `i` bytes of `src` stand at `off`; the file has grown to hold them; nothing else differs. */
  ghost predicate Written(inodes0: seq<Inode>, blocks0: seq<Block>, inodes: seq<Inode>, blocks: seq<Block>,
                          ip: nat, src: seq<byte>, off: nat, i: nat) {
    && ip < |inodes0| && OthersKept(inodes0, blocks0, inodes, blocks, ip) && i <= |src| && off <= inodes0[ip].size
    && inodes[ip].size == (if off + i > inodes0[ip].size then off + i else inodes0[ip].size)
    && inodes[ip].size <= MAXFILE * BSIZE
    && Holds(inodes0, blocks0, inodes, blocks, ip, inodes0[ip].size, off, src[..i])
  }

  /** The same, or nothing written and nothing changed yet. */
  ghost predicate Underway(inodes0: seq<Inode>, blocks0: seq<Block>, inodes: seq<Inode>, blocks: seq<Block>,
                           ip: nat, src: seq<byte>, off: nat, i: nat) {
    (i == 0 && inodes == inodes0 && blocks == blocks0) || Written(inodes0, blocks0, inodes, blocks, ip, src, off, i)
  }

  lemma WrittenStart(inodes0: seq<Inode>, blocks0: seq<Block>, inodes: seq<Inode>, blocks: seq<Block>,
                     ip: nat, src: seq<byte>, off: nat, i: nat)
    requires Underway(inodes0, blocks0, inodes, blocks, ip, src, off, i)
    requires Sized(inodes, blocks) && ip < |inodes| && off + i <= inodes[ip].size
    ensures Written(inodes0, blocks0, inodes, blocks, ip, src, off, i)
  {
    assert forall j :: 0 <= j < |inodes| ==> MappedBelow(inodes, blocks, j, inodes[j].size);
  }

  lemma WrittenNext(inodes0: seq<Inode>, blocks0: seq<Block>, inodes1: seq<Inode>, blocks1: seq<Block>,
                    inodes: seq<Inode>, blocks: seq<Block>, ip: nat, src: seq<byte>, off: nat, i: nat, r: nat)
    requires Written(inodes0, blocks0, inodes1, blocks1, ip, src, off, i) && i + r <= |src|
    requires OthersKept(inodes1, blocks1, inodes, blocks, ip) && inodes[ip].size <= MAXFILE * BSIZE
    requires inodes[ip].size == if off + i + r > inodes1[ip].size then off + i + r else inodes1[ip].size
    requires Holds(inodes1, blocks1, inodes, blocks, ip, inodes1[ip].size, off + i, src[i..i + r])
    ensures Written(inodes0, blocks0, inodes, blocks, ip, src, off, i + r)
  {
    KeptTrans(inodes0, blocks0, inodes1, blocks1, inodes, blocks, ip);
    HoldsNext(inodes0, blocks0, inodes1, blocks1, inodes, blocks, ip, inodes0[ip].size, off, src[..i], src[i..i + r]);
    assert src[..i] + src[i..i + r] == src[..i + r];
  }

  lemma ChunkDone(inodes0: seq<Inode>, blocks0: seq<Block>, inodes1: seq<Inode>, blocks1: seq<Block>,
                  inodes: seq<Inode>, blocks: seq<Block>, ip: nat, src: seq<byte>, off: nat, i: nat, n: nat, r: nat)
    requires Underway(inodes0, blocks0, inodes1, blocks1, ip, src, off, i) && i + n <= |src| && r <= n
    requires Sized(inodes1, blocks1) && Sized(inodes, blocks) && ip < |inodes1| && off + i <= inodes1[ip].size
    requires OthersKept(inodes1, blocks1, inodes, blocks, ip)
    requires inodes[ip].size == if off + i + r > inodes1[ip].size then off + i + r else inodes1[ip].size
    requires Holds(inodes1, blocks1, inodes, blocks, ip, inodes1[ip].size, off + i, src[i..i + n][..r])
    ensures Written(inodes0, blocks0, inodes, blocks, ip, src, off, i + r)
  {
    WrittenStart(inodes0, blocks0, inodes1, blocks1, ip, src, off, i);
    assert src[i..i + n][..r] == src[i..i + r];
    assert MappedBelow(inodes, blocks, ip, inodes[ip].size);
    WrittenNext(inodes0, blocks0, inodes1, blocks1, inodes, blocks, ip, src, off, i, r);
  }

  /** A chunk is refused only if the whole write had to be. */
  lemma RefusedFromStart(inodes0: seq<Inode>, blocks0: seq<Block>, inodes: seq<Inode>, blocks: seq<Block>,
                         ip: nat, src: seq<byte>, off: nat, i: nat, n: nat)
    requires Underway(inodes0, blocks0, inodes, blocks, ip, src, off, i) && ip < |inodes| && i + n <= |src|
    requires Refused(inodes[ip].size, off + i, n)
    ensures ip < |inodes0| && Refused(inodes0[ip].size, off, |src|)
  {
  }

  lemma AllWritten(inodes0: seq<Inode>, blocks0: seq<Block>, inodes: seq<Inode>, blocks: seq<Block>, ip: nat, src: seq<byte>, off: nat)
    requires Underway(inodes0, blocks0, inodes, blocks, ip, src, off, |src|) && ip < |inodes0| && src != []
    ensures !Refused(inodes0[ip].size, off, |src|)
  {
  }

  ghost function Elements(t: seq<nat>): set<nat> { set x | x in t }

  lemma {:induction false} FewElements(t: seq<nat>)
    ensures |Elements(t)| <= |t|
  {
    if t == [] {
      assert Elements(t) == {};
    } else {
      FewElements(t[1..]);
      assert Elements(t) == {t[0]} + Elements(t[1..]);
      UnionSize({t[0]}, Elements(t[1..]));
    }
  }

  /** A chunk of three blocks logs at most eight: four data blocks, and bitmap, inode and indirect block. */
  lemma FootprintSmall(bm: nat, ib: nat, ind: nat, touched: seq<nat>, logged: set<nat>, off: nat, n: nat)
    requires FewBlocks(off, n, |touched|) && n <= 3 * BSIZE
    ensures logged <= Footprint(bm, ib, ind, touched) ==> |logged| <= MAXOPBLOCKS
  {
    assert |touched| <= 4;
    var all := [bm, ib, 0, ind] + touched;
    FewElements(all);
    assert Elements(all) == Footprint(bm, ib, ind, touched);
    if logged <= Elements(all) { SubsetSize(logged, Elements(all)); }
  }

  lemma UnionSize(a: set<nat>, b: set<nat>)
    ensures |a + b| <= |a| + |b|
  {
    assert a + b == a + (b - a);
    SubsetSize(b - a, b);
  }

  lemma {:induction false} SubsetSize(a: set<nat>, b: set<nat>)
    requires a <= b
    ensures |a| <= |b|
  {
    if a != {} {
      var x :| x in a;
      SubsetSize(a - {x}, b - {x});
    }
  }

  ghost function Footprint(bitmapBlock: nat, inodeBlock: nat, ind: nat, touched: seq<nat>): set<nat> {
    {bitmapBlock, inodeBlock, 0, ind} + Elements(touched)
  }

  lemma FootprintGrows(l0: set<nat>, l1: set<nat>, l2: set<nat>, bm: nat, ib: nat, ind1: nat, ind2: nat, touched: seq<nat>, addr: nat)
    requires l1 <= l0 + Footprint(bm, ib, ind1, touched) && l2 <= l1 + {bm, ind2, addr} && (ind1 != 0 ==> ind2 == ind1)
    ensures l2 <= l0 + Footprint(bm, ib, ind2, touched + [addr])
    ensures addr == 0 ==> l2 <= l0 + Footprint(bm, ib, ind2, touched)
  {
    assert addr in touched + [addr];
    assert forall x :: x in touched ==> x in touched + [addr];
  }

  /** The blocks a write of `n` bytes at `off` can touch: one more than are filled, at most. */
  ghost predicate FewBlocks(off: nat, n: nat, count: nat) {
    count == 0 || (count - 1) * BSIZE < off % BSIZE + n
  }

  /** Where `count` turns of the loop have brought a write of `n` bytes from `off0`. */
  ghost predicate Aligned(off0: nat, tot: nat, n: nat, count: nat) {
    && FewBlocks(off0, tot, count)
    && (count > 0 && tot < n ==> off0 % BSIZE + tot == count * BSIZE)
    && (count == 0 ==> tot == 0)
  }

  lemma NextTurn(off0: nat, tot: nat, n: nat, count: nat)
    requires Aligned(off0, tot, n, count) && tot < n && off0 + n <= MAXFILE * BSIZE
    ensures var off := off0 + tot;
            var m := if n - tot < BSIZE - off % BSIZE then n - tot else BSIZE - off % BSIZE;
            && m > 0 && off % BSIZE + m <= BSIZE && off / BSIZE < MAXFILE && Aligned(off0, tot + m, n, count + 1)
  {
    if count > 0 {
      assert off0 + tot == (off0 / BSIZE + count) * BSIZE;
      Multiple(off0 / BSIZE + count);
    }
  }

  /** How much of the rest fits into the block of byte `off0 + tot`. */
  method PieceSize(off0: nat, tot: nat, n: nat, ghost count: nat) returns (m: nat)
    requires Aligned(off0, tot, n, count) && tot < n && off0 + n <= MAXFILE * BSIZE
    ensures 0 < m <= n - tot && (off0 + tot) % BSIZE + m <= BSIZE && (off0 + tot) / BSIZE < MAXFILE
    ensures Aligned(off0, tot + m, n, count + 1)
  {
    var off := off0 + tot;
    NextTurn(off0, tot, n, count);
    m := if n - tot < BSIZE - off % BSIZE then n - tot else BSIZE - off % BSIZE;
  }

  lemma Multiple(k: nat)
    ensures (k * BSIZE) % BSIZE == 0
  {
  }

  /** Bytes of the piece and of its block, told apart. */
  lemma PieceByte(off: nat, m: nat, o: nat)
    requires off % BSIZE + m <= BSIZE
    ensures off <= o < off + m ==> o / BSIZE == off / BSIZE && o % BSIZE == off % BSIZE + (o - off)
    ensures o / BSIZE == off / BSIZE && !(off <= o < off + m) ==> o % BSIZE < off % BSIZE || o % BSIZE >= off % BSIZE + m
    ensures o < MAXFILE * BSIZE ==> o / BSIZE < MAXFILE
  {
  }

  /** Setting a file's size to a mapped length changes no byte of any file. */
  lemma SizeBytes(inodes: seq<Inode>, blocks: seq<Block>, ip: nat, n: nat)
    requires Sized(inodes, blocks) && ip < |inodes| && MappedBelow(inodes, blocks, ip, n)
    ensures var inodes' := inodes[ip := inodes[ip].(size := n)];
      && Sized(inodes', blocks)
      && forall i: nat, o: nat {:trigger ByteAt(inodes', blocks, i, o)} :: i < |inodes| && o / BSIZE < MAXFILE ==>
           ByteAt(inodes', blocks, i, o) == ByteAt(inodes, blocks, i, o)
  {
    var inodes' := inodes[ip := inodes[ip].(size := n)];
    forall i | 0 <= i < |inodes'| ensures MappedBelow(inodes', blocks, i, inodes'[i].size) {
      forall k | 0 <= k < MAXFILE && k * BSIZE < inodes'[i].size ensures Slot(inodes', blocks, RefOf(i, k)) != 0 {
        assert MappedBelow(inodes, blocks, i, inodes'[i].size);
        assert Slot(inodes', blocks, RefOf(i, k)) == Slot(inodes, blocks, RefOf(i, k));
      }
    }
    forall i: nat, o: nat | i < |inodes| && o / BSIZE < MAXFILE
      ensures ByteAt(inodes', blocks, i, o) == ByteAt(inodes, blocks, i, o)
    {
      assert Slot(inodes', blocks, RefOf(i, o / BSIZE)) == Slot(inodes, blocks, RefOf(i, o / BSIZE));
    }
  }

  lemma SameBlock(off: nat, k: nat)
    requires off % BSIZE + k < BSIZE
    ensures (off + k) / BSIZE == off / BSIZE && (off + k) % BSIZE == off % BSIZE + k
  {
  }
}
