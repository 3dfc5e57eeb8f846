/**
 The file system image that fs.c works on, and who owns which block.  A block
 is 1024 bytes; an indirect block holds 256 little-endian words.  A reference
 is a place where a block number can be stored; the ghost map `own` gives every
 block in use the one place that refers to it.
 */
module FsImage {

  import opened Common

  const BSIZE: nat := 1024
  const NDIRECT: nat := 12
  const NINDIRECT: nat := 256
  const MAXFILE: nat := NDIRECT + NINDIRECT
  const UINT: nat := 0x1_0000_0000

  type Block = b: seq<byte> | |b| == BSIZE witness seq(BSIZE, _ => 0)
  type Addrs = a: seq<nat> | |a| == NDIRECT + 1 witness seq(NDIRECT + 1, _ => 0)

  datatype Inode = Inode(addrs: Addrs, size: nat)

  datatype Ref = Meta | Direct(i: nat, k: nat) | Indirect(i: nat) | Entry(i: nat, k: nat)

  // ------------------------------------------------------- words in a block

  function Word(b: Block, k: nat): nat
    requires k < NINDIRECT
  {
    var w0: int, w1: int, w2: int, w3: int := b[4 * k], b[4 * k + 1], b[4 * k + 2], b[4 * k + 3];
    w0 + 0x100 * w1 + 0x1_0000 * w2 + 0x100_0000 * w3
  }

  function SetWord(b: Block, k: nat, v: nat): Block
    requires k < NINDIRECT && v < UINT
  {
    b[4 * k := v % 0x100][4 * k + 1 := v / 0x100 % 0x100][4 * k + 2 := v / 0x1_0000 % 0x100][4 * k + 3 := v / 0x100_0000]
  }

  lemma WordSet(b: Block, k: nat, v: nat, j: nat)
    requires k < NINDIRECT && j < NINDIRECT && v < UINT
    ensures Word(SetWord(b, k, v), j) == if j == k then v else Word(b, j)
  {
    Digits(v);
  }

  lemma Digits(v: nat)
    requires v < UINT
    ensures v == v % 0x100 + 0x100 * (v / 0x100 % 0x100) + 0x1_0000 * (v / 0x1_0000 % 0x100) + 0x100_0000 * (v / 0x100_0000)
  {
    assert v / 0x1_0000 == v / 0x100 / 0x100;
    assert v / 0x100_0000 == v / 0x1_0000 / 0x100;
  }

  const ZERO: Block := seq(BSIZE, _ => 0)

  // ------------------------------------------------------------- references

  ghost predicate IsRef(inodes: seq<Inode>, r: Ref) {
    match r
    case Meta => false
    case Direct(i, k) => i < |inodes| && k < NDIRECT
    case Indirect(i) => i < |inodes|
    case Entry(i, k) => i < |inodes| && k < NINDIRECT
  }

  /** The block number stored at a reference; 0 means none. */
  ghost function Slot(inodes: seq<Inode>, blocks: seq<Block>, r: Ref): nat
    requires IsRef(inodes, r)
  {
    match r
    case Direct(i, k) => inodes[i].addrs[k]
    case Indirect(i) => inodes[i].addrs[NDIRECT]
    case Entry(i, k) =>
      var ind := inodes[i].addrs[NDIRECT];
      if ind == 0 || ind >= |blocks| then 0 else Word(blocks[ind], k)
  }

  /** Where block `bn` of file `i` is recorded. */
  function RefOf(i: nat, bn: nat): Ref {
    if bn < NDIRECT then Direct(i, bn) else Entry(i, bn - NDIRECT)
  }

  /** The reference belongs to file `i`. */
  predicate Of(r: Ref, i: nat) { (r.Direct? || r.Indirect? || r.Entry?) && r.i == i }

  // -------------------------------------------------------------- ownership

  /** A block number in use at `r` is owned by `r`; entries of file `di` below `dk` are being dropped. */
  ghost predicate RefOk(inodes: seq<Inode>, blocks: seq<Block>, own: map<nat, Ref>, r: Ref, di: nat, dk: nat) {
    IsRef(inodes, r) && !(r.Entry? && r.i == di && r.k < dk) && Slot(inodes, blocks, r) != 0 ==>
      Slot(inodes, blocks, r) in own && own[Slot(inodes, blocks, r)] == r
  }

  /** A block with an owner is below the data area exactly if it is metadata, else stored at its owner. */
  ghost predicate OwnOk(inodes: seq<Inode>, blocks: seq<Block>, own: map<nat, Ref>, nmeta: nat, b: nat, di: nat, dk: nat) {
    b in own ==>
      && (own[b].Meta? <==> b < nmeta) && b < |blocks| && !(own[b].Entry? && own[b].i == di && own[b].k < dk)
      && (!own[b].Meta? ==> IsRef(inodes, own[b]) && Slot(inodes, blocks, own[b]) == b)
  }

  ghost predicate Owned(inodes: seq<Inode>, blocks: seq<Block>, own: map<nat, Ref>, nmeta: nat, di: nat, dk: nat) {
    && nmeta > 0 && (forall b: nat :: b < nmeta ==> b in own)
    && (forall r {:trigger RefOk(inodes, blocks, own, r, di, dk)} :: RefOk(inodes, blocks, own, r, di, dk))
    && (forall b {:trigger OwnOk(inodes, blocks, own, nmeta, b, di, dk)} :: OwnOk(inodes, blocks, own, nmeta, b, di, dk))
  }

  /** The bitmap marks the owned blocks, and those just taken from it. */
  ghost predicate Marked(bitmap: seq<bool>, own: map<nat, Ref>, loose: set<nat>) {
    forall b: nat :: b < |bitmap| && bitmap[b] <==> b in own || b in loose
  }

  /** Every block number reachable from an inode is referenced exactly once. */
  lemma ReferencedOnce(inodes: seq<Inode>, blocks: seq<Block>, own: map<nat, Ref>, nmeta: nat, bitmap: seq<bool>, r: Ref, q: Ref)
    requires Owned(inodes, blocks, own, nmeta, 0, 0) && Marked(bitmap, own, {})
    requires IsRef(inodes, r) && Slot(inodes, blocks, r) != 0
    ensures nmeta <= Slot(inodes, blocks, r) < |bitmap| && bitmap[Slot(inodes, blocks, r)]
    ensures IsRef(inodes, q) && Slot(inodes, blocks, q) == Slot(inodes, blocks, r) ==> q == r
  {
    assert RefOk(inodes, blocks, own, r, 0, 0) && RefOk(inodes, blocks, own, q, 0, 0);
    assert OwnOk(inodes, blocks, own, nmeta, Slot(inodes, blocks, r), 0, 0);
  }

  lemma RefBlock(inodes: seq<Inode>, blocks: seq<Block>, own: map<nat, Ref>, nmeta: nat, r: Ref)
    requires Owned(inodes, blocks, own, nmeta, 0, 0) && IsRef(inodes, r) && Slot(inodes, blocks, r) != 0
    ensures var b := Slot(inodes, blocks, r); b in own && own[b] == r && nmeta <= b < |blocks|
  {
    assert RefOk(inodes, blocks, own, r, 0, 0) && OwnOk(inodes, blocks, own, nmeta, Slot(inodes, blocks, r), 0, 0);
  }

  // ------------------------------------------------------ changes to the image

  /** Only these things changed between two images: the slots of `r`, and new owner `b` for it. */
  ghost predicate SameSlots(inodes: seq<Inode>, blocks: seq<Block>, inodes': seq<Inode>, blocks': seq<Block>, r: Ref) {
    && |inodes'| == |inodes| && |blocks'| == |blocks|
    && forall q {:trigger Slot(inodes', blocks', q)} :: IsRef(inodes, q) && q != r ==>
         IsRef(inodes', q) && Slot(inodes', blocks', q) == Slot(inodes, blocks, q)
  }

  lemma Assigned(inodes: seq<Inode>, blocks: seq<Block>, own: map<nat, Ref>, nmeta: nat,
                 inodes': seq<Inode>, blocks': seq<Block>, r: Ref, b: nat)
    requires Owned(inodes, blocks, own, nmeta, 0, 0) && IsRef(inodes, r) && Slot(inodes, blocks, r) == 0
    requires SameSlots(inodes, blocks, inodes', blocks', r)
    requires IsRef(inodes', r) && Slot(inodes', blocks', r) == b && b !in own && nmeta <= b < |blocks|
    ensures Owned(inodes', blocks', own[b := r], nmeta, 0, 0)
  {
    var own' := own[b := r];
    forall q ensures RefOk(inodes', blocks', own', q, 0, 0) {
      assert RefOk(inodes, blocks, own, q, 0, 0);
      assert IsRef(inodes', q) <==> IsRef(inodes, q);
    }
    forall x ensures OwnOk(inodes', blocks', own', nmeta, x, 0, 0) {
      assert OwnOk(inodes, blocks, own, nmeta, x, 0, 0);
    }
  }

  /** Emptying reference `r` gives up the block it held. */
  lemma Emptied(inodes: seq<Inode>, blocks: seq<Block>, own: map<nat, Ref>, nmeta: nat, inodes': seq<Inode>, r: Ref, b: nat)
    requires Owned(inodes, blocks, own, nmeta, 0, 0) && IsRef(inodes, r) && SameSlots(inodes, blocks, inodes', blocks, r)
    requires b == Slot(inodes, blocks, r) != 0 && IsRef(inodes', r) && Slot(inodes', blocks, r) == 0
    ensures Owned(inodes', blocks, own - {b}, nmeta, 0, 0)
  {
    RefBlock(inodes, blocks, own, nmeta, r);
    forall q ensures RefOk(inodes', blocks, own - {b}, q, 0, 0) {
      assert RefOk(inodes, blocks, own, q, 0, 0);
      assert IsRef(inodes', q) <==> IsRef(inodes, q);
    }
    forall x ensures OwnOk(inodes', blocks, own - {b}, nmeta, x, 0, 0) {
      assert OwnOk(inodes, blocks, own, nmeta, x, 0, 0);
    }
  }

  lemma NothingDropped(inodes: seq<Inode>, blocks: seq<Block>, own: map<nat, Ref>, nmeta: nat, i: nat, j: nat)
    requires Owned(inodes, blocks, own, nmeta, i, 0)
    ensures Owned(inodes, blocks, own, nmeta, j, 0)
  {
    forall q: Ref ensures RefOk(inodes, blocks, own, q, j, 0) { assert RefOk(inodes, blocks, own, q, i, 0); }
    forall x: nat ensures OwnOk(inodes, blocks, own, nmeta, x, j, 0) { assert OwnOk(inodes, blocks, own, nmeta, x, i, 0); }
  }

  /** Freeing the block of entry `k`, whose word stays in the indirect block for now. */
  lemma EntryDropped(inodes: seq<Inode>, blocks: seq<Block>, own: map<nat, Ref>, nmeta: nat, i: nat, k: nat, b: nat)
    requires Owned(inodes, blocks, own, nmeta, i, k) && i < |inodes| && k < NINDIRECT && b == Slot(inodes, blocks, Entry(i, k))
    ensures b != 0 ==> b in own && own[b] == Entry(i, k)
    ensures Owned(inodes, blocks, if b == 0 then own else own - {b}, nmeta, i, k + 1)
  {
    var own', m := if b == 0 then own else own - {b}, k + 1;
    assert RefOk(inodes, blocks, own, Entry(i, k), i, k) && OwnOk(inodes, blocks, own, nmeta, b, i, k);
    forall q ensures RefOk(inodes, blocks, own', q, i, m) { assert RefOk(inodes, blocks, own, q, i, k); }
    forall x ensures OwnOk(inodes, blocks, own', nmeta, x, i, m) { assert OwnOk(inodes, blocks, own, nmeta, x, i, k); }
  }

  /** With all entries dropped, the indirect block goes too. */
  lemma IndirectDropped(inodes: seq<Inode>, blocks: seq<Block>, own: map<nat, Ref>, nmeta: nat, i: nat, b: nat)
    requires Owned(inodes, blocks, own, nmeta, i, NINDIRECT) && i < |inodes| && b == inodes[i].addrs[NDIRECT] != 0
    ensures b in own && own[b] == Indirect(i)
    ensures var inodes' := inodes[i := inodes[i].(addrs := inodes[i].addrs[NDIRECT := 0])];
            Owned(inodes', blocks, own - {b}, nmeta, 0, 0)
  {
    var inodes' := inodes[i := inodes[i].(addrs := inodes[i].addrs[NDIRECT := 0])];
    assert RefOk(inodes, blocks, own, Indirect(i), i, NINDIRECT) && OwnOk(inodes, blocks, own, nmeta, b, i, NINDIRECT);
    forall q ensures RefOk(inodes', blocks, own - {b}, q, 0, 0) {
      assert RefOk(inodes, blocks, own, q, i, NINDIRECT);
    }
    forall x ensures OwnOk(inodes', blocks, own - {b}, nmeta, x, 0, 0) {
      assert OwnOk(inodes, blocks, own, nmeta, x, i, NINDIRECT);
    }
  }

  /** Sizes do not matter to references. */
  lemma Resized(inodes: seq<Inode>, blocks: seq<Block>, own: map<nat, Ref>, nmeta: nat, i: nat, n: nat)
    requires Owned(inodes, blocks, own, nmeta, 0, 0) && i < |inodes|
    ensures var inodes' := inodes[i := inodes[i].(size := n)];
            && Owned(inodes', blocks, own, nmeta, 0, 0)
            && forall q {:trigger Slot(inodes', blocks, q)} :: IsRef(inodes, q) ==> IsRef(inodes', q) && Slot(inodes', blocks, q) == Slot(inodes, blocks, q)
  {
    var inodes' := inodes[i := inodes[i].(size := n)];
    forall q | IsRef(inodes, q) ensures Slot(inodes', blocks, q) == Slot(inodes, blocks, q) { }
    forall q ensures RefOk(inodes', blocks, own, q, 0, 0) { assert RefOk(inodes, blocks, own, q, 0, 0); }
    forall x ensures OwnOk(inodes', blocks, own, nmeta, x, 0, 0) { assert OwnOk(inodes, blocks, own, nmeta, x, 0, 0); }
  }

  /** A file whose slots are all empty owns nothing. */
  lemma OwnsNothing(inodes: seq<Inode>, blocks: seq<Block>, own: map<nat, Ref>, nmeta: nat, i: nat, b: nat)
    requires Owned(inodes, blocks, own, nmeta, 0, 0) && i < |inodes| && forall k :: 0 <= k <= NDIRECT ==> inodes[i].addrs[k] == 0
    requires b in own
    ensures !Of(own[b], i)
  {
    assert OwnOk(inodes, blocks, own, nmeta, b, 0, 0);
  }

  lemma SetDirect(inodes: seq<Inode>, blocks: seq<Block>, i: nat, k: nat, b: nat)
    requires i < |inodes| && k < NDIRECT
    ensures var inodes' := inodes[i := inodes[i].(addrs := inodes[i].addrs[k := b])];
            && SameSlots(inodes, blocks, inodes', blocks, Direct(i, k))
            && IsRef(inodes', Direct(i, k)) && Slot(inodes', blocks, Direct(i, k)) == b
  {
    var inodes' := inodes[i := inodes[i].(addrs := inodes[i].addrs[k := b])];
    forall q | IsRef(inodes, q) && q != Direct(i, k)
      ensures IsRef(inodes', q) && Slot(inodes', blocks, q) == Slot(inodes, blocks, q)
    {
    }
  }

  lemma SetIndirect(inodes: seq<Inode>, blocks: seq<Block>, i: nat, b: nat)
    requires i < |inodes| && inodes[i].addrs[NDIRECT] == 0 && b < |blocks| && blocks[b] == ZERO
    ensures var inodes' := inodes[i := inodes[i].(addrs := inodes[i].addrs[NDIRECT := b])];
            && SameSlots(inodes, blocks, inodes', blocks, Indirect(i))
            && IsRef(inodes', Indirect(i)) && Slot(inodes', blocks, Indirect(i)) == b
  {
    var inodes' := inodes[i := inodes[i].(addrs := inodes[i].addrs[NDIRECT := b])];
    forall q | IsRef(inodes, q) && q != Indirect(i)
      ensures IsRef(inodes', q) && Slot(inodes', blocks, q) == Slot(inodes, blocks, q)
    {
      if q.Entry? && q.i == i { assert Word(ZERO, q.k) == 0; }
    }
  }

  lemma SetEntry(inodes: seq<Inode>, blocks: seq<Block>, own: map<nat, Ref>, nmeta: nat, i: nat, k: nat, b: nat)
    requires Owned(inodes, blocks, own, nmeta, 0, 0)
    requires i < |inodes| && k < NINDIRECT && b < UINT && 0 < inodes[i].addrs[NDIRECT] < |blocks|
    ensures var ind := inodes[i].addrs[NDIRECT];
            var blocks' := blocks[ind := SetWord(blocks[ind], k, b)];
            && SameSlots(inodes, blocks, inodes, blocks', Entry(i, k))
            && Slot(inodes, blocks', Entry(i, k)) == b
  {
    var ind := inodes[i].addrs[NDIRECT];
    var blocks' := blocks[ind := SetWord(blocks[ind], k, b)];
    WordSet(blocks[ind], k, b, k);
    forall q | IsRef(inodes, q) && q != Entry(i, k) ensures Slot(inodes, blocks', q) == Slot(inodes, blocks, q) {
      if q.Entry? {
        assert RefOk(inodes, blocks, own, Indirect(i), 0, 0) && RefOk(inodes, blocks, own, Indirect(q.i), 0, 0);
        WordSet(blocks[ind], k, b, q.k);
      }
    }
  }

  /** Rewriting a block that is no indirect block changes no reference. */
  lemma DataWrite(inodes: seq<Inode>, blocks: seq<Block>, own: map<nat, Ref>, nmeta: nat, d: nat, x: Block)
    requires Owned(inodes, blocks, own, nmeta, 0, 0) && d < |blocks| && (d in own ==> !own[d].Indirect?)
    ensures forall q {:trigger Slot(inodes, blocks[d := x], q)} :: IsRef(inodes, q) ==> Slot(inodes, blocks[d := x], q) == Slot(inodes, blocks, q)
    ensures Owned(inodes, blocks[d := x], own, nmeta, 0, 0)
  {
    var blocks' := blocks[d := x];
    forall q | IsRef(inodes, q) ensures Slot(inodes, blocks', q) == Slot(inodes, blocks, q) {
      if q.Entry? { assert RefOk(inodes, blocks, own, Indirect(q.i), 0, 0); }
    }
    forall q ensures RefOk(inodes, blocks', own, q, 0, 0) { assert RefOk(inodes, blocks, own, q, 0, 0); }
    forall b ensures OwnOk(inodes, blocks', own, nmeta, b, 0, 0) { assert OwnOk(inodes, blocks, own, nmeta, b, 0, 0); }
  }

  // ----------------------------------------------------------- file contents

  /** Every block of file `i` that begins below byte `n` is mapped. */
  ghost predicate MappedBelow(inodes: seq<Inode>, blocks: seq<Block>, i: nat, n: int) {
    && i < |inodes| && n <= MAXFILE * BSIZE
    && forall bn {:trigger RefOf(i, bn)} :: 0 <= bn < MAXFILE && bn * BSIZE < n ==> Slot(inodes, blocks, RefOf(i, bn)) != 0
  }

  /** Byte `o` of file `i`. */
  ghost function ByteAt(inodes: seq<Inode>, blocks: seq<Block>, i: nat, o: nat): byte
    requires i < |inodes| && o / BSIZE < MAXFILE
  {
    var b := Slot(inodes, blocks, RefOf(i, o / BSIZE));
    if b < |blocks| then blocks[b][o % BSIZE] else 0
  }

  /** All files are mapped up to their sizes. */
  ghost predicate Sized(inodes: seq<Inode>, blocks: seq<Block>) {
    forall i :: 0 <= i < |inodes| ==> MappedBelow(inodes, blocks, i, inodes[i].size)
  }

  /** Blocks recorded in files stay recorded there, with the same data; sizes are unchanged. */
  ghost predicate Extends(inodes: seq<Inode>, blocks: seq<Block>, inodes': seq<Inode>, blocks': seq<Block>) {
    && |inodes'| == |inodes| && |blocks'| == |blocks|
    && (forall i :: 0 <= i < |inodes| ==> inodes'[i].size == inodes[i].size)
    && forall q {:trigger Slot(inodes', blocks', q)} :: IsRef(inodes, q) && !q.Indirect? && Slot(inodes, blocks, q) != 0 ==>
         var b := Slot(inodes, blocks, q);
         IsRef(inodes', q) && Slot(inodes', blocks', q) == b && b < |blocks| && blocks'[b] == blocks[b]
  }

  /** `own` is `was` less some blocks of file `i`. */
  ghost predicate Lost(was: map<nat, Ref>, own: map<nat, Ref>, i: nat) {
    && (forall b :: b in own ==> b in was && own[b] == was[b])
    && (forall b :: b in was && b !in own ==> Of(was[b], i))
  }

  /** A file whose inode did not change is mapped as before, over the same blocks. */
  lemma OtherMapped(inodes: seq<Inode>, inodes': seq<Inode>, blocks: seq<Block>, j: nat)
    requires Sized(inodes, blocks) && |inodes'| == |inodes| && j < |inodes| && inodes'[j] == inodes[j]
    ensures MappedBelow(inodes', blocks, j, inodes'[j].size)
  {
    assert MappedBelow(inodes, blocks, j, inodes[j].size);
    forall bn | 0 <= bn < MAXFILE && bn * BSIZE < inodes[j].size ensures Slot(inodes', blocks, RefOf(j, bn)) != 0 {
      assert Slot(inodes, blocks, RefOf(j, bn)) != 0;
    }
  }

  /** An extension keeps every byte of every mapped stretch. */
  lemma BytesKept(inodes: seq<Inode>, blocks: seq<Block>, inodes': seq<Inode>, blocks': seq<Block>, i: nat, n: int)
    requires Extends(inodes, blocks, inodes', blocks') && MappedBelow(inodes, blocks, i, n)
    ensures MappedBelow(inodes', blocks', i, n)
    ensures forall o :: 0 <= o < n ==> ByteAt(inodes', blocks', i, o) == ByteAt(inodes, blocks, i, o)
  {
    forall bn | 0 <= bn < MAXFILE && bn * BSIZE < n
      ensures Slot(inodes', blocks', RefOf(i, bn)) == Slot(inodes, blocks, RefOf(i, bn)) != 0
    {
    }
    forall o | 0 <= o < n ensures ByteAt(inodes', blocks', i, o) == ByteAt(inodes, blocks, i, o) {
      assert Slot(inodes', blocks', RefOf(i, o / BSIZE)) == Slot(inodes, blocks, RefOf(i, o / BSIZE)) != 0;
    }
  }

  lemma SizedKept(inodes: seq<Inode>, blocks: seq<Block>, inodes': seq<Inode>, blocks': seq<Block>)
    requires Extends(inodes, blocks, inodes', blocks') && Sized(inodes, blocks)
    ensures Sized(inodes', blocks')
  {
    forall i | 0 <= i < |inodes'| ensures MappedBelow(inodes', blocks', i, inodes'[i].size) {
      BytesKept(inodes, blocks, inodes', blocks', i, inodes[i].size);
    }
  }

  /** A block nobody owns may be zeroed. */
  lemma ZeroLoose(inodes: seq<Inode>, blocks: seq<Block>, own: map<nat, Ref>, nmeta: nat, b: nat)
    requires Owned(inodes, blocks, own, nmeta, 0, 0) && b < |blocks| && b !in own
    ensures Owned(inodes, blocks[b := ZERO], own, nmeta, 0, 0)
    ensures Extends(inodes, blocks, inodes, blocks[b := ZERO])
    ensures forall q {:trigger Slot(inodes, blocks[b := ZERO], q)} :: IsRef(inodes, q) ==> Slot(inodes, blocks[b := ZERO], q) == Slot(inodes, blocks, q)
  {
    DataWrite(inodes, blocks, own, nmeta, b, ZERO);
    forall q | IsRef(inodes, q) && !q.Indirect? && Slot(inodes, blocks, q) != 0
      ensures Slot(inodes, blocks, q) < |blocks| && Slot(inodes, blocks, q) != b
    {
      RefBlock(inodes, blocks, own, nmeta, q);
    }
  }

  /** Filling an empty reference, after the block was zeroed, is an extension. */
  lemma FillExtends(inodes: seq<Inode>, blocks: seq<Block>, own: map<nat, Ref>, nmeta: nat, inodes': seq<Inode>, blocks': seq<Block>, r: Ref)
    requires Owned(inodes, blocks, own, nmeta, 0, 0) && IsRef(inodes, r) && Slot(inodes, blocks, r) == 0
    requires SameSlots(inodes, blocks, inodes', blocks', r)
    requires forall i :: 0 <= i < |inodes| ==> inodes'[i].size == inodes[i].size
    requires forall b :: 0 <= b < |blocks| && !(b in own && own[b].Indirect?) ==> blocks'[b] == blocks[b]
    ensures Extends(inodes, blocks, inodes', blocks')
  {
    forall q | IsRef(inodes, q) && !q.Indirect? && Slot(inodes, blocks, q) != 0
      ensures IsRef(inodes', q) && Slot(inodes', blocks', q) == Slot(inodes, blocks, q)
      ensures Slot(inodes, blocks, q) < |blocks| && blocks'[Slot(inodes, blocks, q)] == blocks[Slot(inodes, blocks, q)]
    {
      RefBlock(inodes, blocks, own, nmeta, q);
    }
  }

  lemma ExtendsSelf(inodes: seq<Inode>, blocks: seq<Block>, own: map<nat, Ref>, nmeta: nat)
    requires Owned(inodes, blocks, own, nmeta, 0, 0)
    ensures Extends(inodes, blocks, inodes, blocks)
  {
    forall q | IsRef(inodes, q) && !q.Indirect? && Slot(inodes, blocks, q) != 0 ensures Slot(inodes, blocks, q) < |blocks| {
      RefBlock(inodes, blocks, own, nmeta, q);
    }
  }

  lemma ExtendsTrans(inodes: seq<Inode>, blocks: seq<Block>, inodes1: seq<Inode>, blocks1: seq<Block>, inodes2: seq<Inode>, blocks2: seq<Block>)
    requires Extends(inodes, blocks, inodes1, blocks1) && Extends(inodes1, blocks1, inodes2, blocks2)
    ensures Extends(inodes, blocks, inodes2, blocks2)
  {
    forall q | IsRef(inodes, q) && !q.Indirect? && Slot(inodes, blocks, q) != 0
      ensures var b := Slot(inodes, blocks, q);
              IsRef(inodes2, q) && Slot(inodes2, blocks2, q) == b && b < |blocks| && blocks2[b] == blocks[b]
    {
      assert Slot(inodes1, blocks1, q) == Slot(inodes, blocks, q);
    }
  }

  /** Rewriting the block of one place in a file changes the bytes of that block and no others. */
  lemma DataBytes(inodes: seq<Inode>, blocks: seq<Block>, own: map<nat, Ref>, nmeta: nat, ip: nat, bn: nat, d: nat, x: Block)
    requires Owned(inodes, blocks, own, nmeta, 0, 0) && ip < |inodes| && bn < MAXFILE && d == Slot(inodes, blocks, RefOf(ip, bn)) != 0
    ensures d < |blocks| && Owned(inodes, blocks[d := x], own, nmeta, 0, 0)
    ensures forall i: nat, n :: MappedBelow(inodes, blocks, i, n) ==> MappedBelow(inodes, blocks[d := x], i, n)
    ensures Slot(inodes, blocks[d := x], RefOf(ip, bn)) == d
    ensures forall i: nat, o: nat {:trigger ByteAt(inodes, blocks[d := x], i, o)} ::
      i < |inodes| && o / BSIZE < MAXFILE && Slot(inodes, blocks, RefOf(i, o / BSIZE)) != 0 ==>
        ByteAt(inodes, blocks[d := x], i, o) == if i == ip && o / BSIZE == bn then x[o % BSIZE] else ByteAt(inodes, blocks, i, o)
  {
    RefBlock(inodes, blocks, own, nmeta, RefOf(ip, bn));
    DataWrite(inodes, blocks, own, nmeta, d, x);
    var blocks' := blocks[d := x];
    forall i: nat, n | MappedBelow(inodes, blocks, i, n) ensures MappedBelow(inodes, blocks', i, n) {
      forall k | 0 <= k < MAXFILE && k * BSIZE < n ensures Slot(inodes, blocks', RefOf(i, k)) != 0 {
        assert Slot(inodes, blocks', RefOf(i, k)) == Slot(inodes, blocks, RefOf(i, k));
      }
    }
    forall i: nat, o: nat | i < |inodes| && o / BSIZE < MAXFILE && Slot(inodes, blocks, RefOf(i, o / BSIZE)) != 0
      ensures ByteAt(inodes, blocks', i, o) == if i == ip && o / BSIZE == bn then x[o % BSIZE] else ByteAt(inodes, blocks, i, o)
    {
      RefBlock(inodes, blocks, own, nmeta, RefOf(i, o / BSIZE));
      assert Slot(inodes, blocks', RefOf(i, o / BSIZE)) == Slot(inodes, blocks, RefOf(i, o / BSIZE));
    }
  }

  /** A mapped stretch grows to the end of a write that begins in it and stays in one mapped block. */
  lemma MappedGrows(inodes: seq<Inode>, blocks: seq<Block>, i: nat, cur: nat, off: nat, m: nat)
    requires MappedBelow(inodes, blocks, i, cur) && off <= cur && off % BSIZE + m <= BSIZE && off + m <= MAXFILE * BSIZE
    requires off / BSIZE < MAXFILE && Slot(inodes, blocks, RefOf(i, off / BSIZE)) != 0
    ensures MappedBelow(inodes, blocks, i, off + m)
  {
    forall k | 0 <= k < MAXFILE && k * BSIZE < off + m ensures Slot(inodes, blocks, RefOf(i, k)) != 0 {
      if k != off / BSIZE {
        assert k * BSIZE < off;
      }
    }
  }
}
