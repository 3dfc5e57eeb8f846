/**
 The log as code: the global `log` structure with its in-memory header, the
 buffers it goes through and the disk below them.  Every method is tied to the
 specification of LogDisk (which blocks it writes, in which order) or of
 LogProtocol (what it does to the state under `log.lock`).
 */
module Log {
  import opened Common
  import opened LogDisk
  import P = LogProtocol

  class Log {
    const start: nat
    const block: array<nat>            // lh.block
    var n: nat                         // lh.n
    var outstanding: int
    var committing: bool
    var ncommit: nat
    var pins: map<nat, int>            // pins put on buffers by log_write
    var dirty: map<nat, Block>         // buffers that are ahead of the disk
    var disk: seq<Block>
    ghost const boot: seq<Block>       // the disk this run started from
    ghost var issued: seq<Write>       // every bwrite since

    constructor (start: nat, disk: seq<Block>)
      ensures this.start == start && this.disk == disk && fresh(block)
      ensures block.Length == LOGBLOCKS && n == 0 && dirty == map[] && issued == [] && Traced()
      ensures View() == P.Shared(0, false, 0, [], map[])
    {
      this.start, this.disk, this.boot := start, disk, disk;
      block := new nat[LOGBLOCKS];
      n, outstanding, committing, ncommit, pins := 0, 0, false, 0, map[];
      dirty, issued := map[], [];
    }

    /** The header fits and names home blocks; changed buffers are of home blocks. */
    ghost predicate Valid()
      reads this, block
    {
      && block.Length == LOGBLOCKS && n <= LOGBLOCKS
      && start + LOGBLOCKS < |disk| && Traced()
      && (forall i :: 0 <= i < n ==> Home(|disk|, start, block[i]))
      && (forall b :: b in dirty ==> Home(|disk|, start, b))
    }

    /** Every logged block is a changed buffer, so a commit writes what the callers stored. */
    ghost predicate Logged()
      reads this, block
      requires n <= block.Length
    {
      forall i :: 0 <= i < n ==> block[i] in dirty
    }

    /** No transaction is left in the log on the disk. */
    ghost predicate Quiet()
      reads this
    {
      start + LOGBLOCKS < |disk| && disk[start][0] == 0
    }

    /** The disk is the boot disk after the writes issued so far. */
    ghost predicate Traced()
      reads this
    {
      disk == Apply(boot, issued)
    }

    ghost function View(): P.Shared
      reads this, block
      requires n <= block.Length
    {
      P.Shared(outstanding, committing, ncommit, block[..n], pins)
    }

    // ----------------------------------------------------- buffers and disk

    /** The buffer cache is transparent: a changed buffer, else the disk. */
    method Bread(bno: nat) returns (b: Block)
      requires bno < |disk|
      ensures b == if bno in dirty then dirty[bno] else disk[bno]
    {
      if bno in dirty {
        b := dirty[bno];
      } else {
        b := disk[bno];
      }
    }

    method Bwrite(bno: nat, b: Block)
      requires Traced() && bno < |disk|
      modifies this`dirty, this`disk, this`issued
      ensures Traced() && dirty == old(dirty) - {bno}
      ensures issued == old(issued) + [Write(bno, b)] && disk == old(disk)[bno := b]
    {
      dirty := dirty - {bno};
      disk := disk[bno := b];
      issued := issued + [Write(bno, b)];
      assert issued[..|issued| - 1] == old(issued);
    }

    /** The holder of home block `bno`'s buffer stores into it. */
    method Modify(bno: nat, b: Block)
      requires Valid() && Logged() && Quiet() && Home(|disk|, start, bno)
      modifies this`dirty
      ensures Valid() && Logged() && Quiet() && dirty == old(dirty)[bno := b]
    {
      dirty := dirty[bno := b];
    }

    // -------------------------------------------------------------- commit

    /** Copy the logged buffers into the log slots. */
    method WriteLog()
      requires Valid() && forall i :: 0 <= i < n ==> block[i] in dirty
      modifies this`dirty, this`disk, this`issued
      ensures Valid() && dirty == old(dirty)
      ensures old(issued) <= issued && |issued| == |old(issued)| + n
      ensures forall i :: 0 <= i < n ==> issued[|old(issued)| + i] == Write(start + 1 + i, dirty[block[i]])
      ensures forall i :: 0 <= i < n ==> disk[start + 1 + i] == dirty[block[i]]
      ensures |disk| == |old(disk)| && disk[start] == old(disk)[start]
    {
      var tail := 0;
      while tail < n
        invariant 0 <= tail <= n && Traced() && dirty == old(dirty)
        invariant |disk| == |old(disk)| && disk[start] == old(disk)[start]
        invariant old(issued) <= issued && |issued| == |old(issued)| + tail
        invariant forall i :: 0 <= i < tail ==> issued[|old(issued)| + i] == Write(start + 1 + i, dirty[block[i]])
        invariant forall i :: 0 <= i < tail ==> disk[start + 1 + i] == dirty[block[i]]
      {
        var to := Bread(start + tail + 1);
        var from := Bread(block[tail]);
        to := from;
        assert dirty - {start + tail + 1} == dirty;
        Bwrite(start + tail + 1, to);
        tail := tail + 1;
      }
    }

    /** Write the in-memory header over the header block, leaving stale entries behind it. */
    method WriteHead()
      requires Valid()
      modifies this`dirty, this`disk, this`issued
      ensures Valid() && dirty == old(dirty)
      ensures issued == old(issued) + [Write(start, Header(old(disk)[start], block[..n]))]
      ensures disk == old(disk)[start := Header(old(disk)[start], block[..n])]
    {
      var hb := Bread(start);
      hb := hb[0 := n as int];
      var i := 0;
      while i < n
        invariant 0 <= i <= n
        invariant |hb| == WORDS && hb[0] == n
        invariant forall j :: 0 <= j < i ==> hb[1 + j] == block[j]
        invariant forall j :: 1 + i <= j < WORDS ==> hb[j] == old(disk)[start][j]
      {
        hb := hb[1 + i := block[i] as int];
        i := i + 1;
      }
      HeaderBuilt(old(disk)[start], block[..n], hb);
      assert dirty - {start} == dirty;
      Bwrite(start, hb);
    }

    /** One turn of `install_trans`. */
    method InstallBlock(tail: nat, recovering: bool)
      requires Valid() && tail < n
      modifies this`dirty, this`disk, this`issued, this`pins
      ensures Traced() && dirty == old(dirty) - {block[tail]}
      ensures disk == old(disk)[block[tail] := old(disk)[start + 1 + tail]]
      ensures issued == old(issued) + [Write(block[tail], old(disk)[start + 1 + tail])]
      ensures pins == if recovering then old(pins) else P.Pin(old(pins), block[tail], -1)
    {
      var lbuf := Bread(start + tail + 1);
      var dbuf := Bread(block[tail]);
      dbuf := lbuf;
      Bwrite(block[tail], dbuf);
      if !recovering {
        pins := P.Pin(pins, block[tail], -1);
      }
    }

    /** Copy the log slots to the home blocks named by the in-memory header. */
    method InstallTrans(recovering: bool)
      requires Valid()
      modifies this`dirty, this`disk, this`issued, this`pins
      ensures Valid() && |disk| == |old(disk)| && disk[start] == old(disk)[start]
      ensures old(issued) <= issued && |issued| == |old(issued)| + n
      ensures forall i :: 0 <= i < n ==> issued[|old(issued)| + i] == Write(block[i], old(disk)[start + 1 + i])
      ensures pins == if recovering then old(pins) else P.UnpinAll(old(pins), block[..n])
      ensures dirty.Keys <= old(dirty).Keys
    {
      var tail := 0;
      while tail < n
        invariant 0 <= tail <= n && Traced() && SameLog(disk, old(disk), start)
        invariant dirty.Keys <= old(dirty).Keys
        invariant old(issued) <= issued && |issued| == |old(issued)| + tail
        invariant forall i :: 0 <= i < tail ==> issued[|old(issued)| + i] == Write(block[i], old(disk)[start + 1 + i])
        invariant pins == if recovering then old(pins) else P.UnpinAll(old(pins), block[..tail])
      {
        assert block[..tail + 1][..tail] == block[..tail];
        InstallBlock(tail, recovering);
        tail := tail + 1;
      }
    }

    /** The first half of `commit`, up to and including the header write that commits. */
    method LogTransaction(ghost blocks: seq<nat>)
      requires Valid() && blocks == block[..n] && forall i :: 0 <= i < n ==> block[i] in dirty
      modifies this`dirty, this`disk, this`issued
      ensures Valid() && dirty == old(dirty) && disk[start] == Header(old(disk)[start], blocks)
      ensures old(issued) <= issued && |issued| == |old(issued)| + n + 1
      ensures forall i :: 0 <= i < n ==> issued[|old(issued)| + i] == Write(start + 1 + i, dirty[blocks[i]])
      ensures issued[|old(issued)| + n] == Write(start, Header(old(disk)[start], blocks))
      ensures forall i :: 0 <= i < n ==> disk[start + 1 + i] == dirty[blocks[i]]
    {
      WriteLog();
      WriteHead();
    }

    /** The second half: copy home, then erase the transaction. */
    method InstallTransaction(ghost blocks: seq<nat>)
      requires Valid() && blocks == block[..n]
      modifies this`dirty, this`disk, this`issued, this`pins, this`n
      ensures Valid() && n == 0 && pins == P.UnpinAll(old(pins), blocks)
      ensures old(issued) <= issued && |issued| == |old(issued)| + |blocks| + 1
      ensures forall i :: 0 <= i < |blocks| ==> issued[|old(issued)| + i] == Write(blocks[i], old(disk)[start + 1 + i])
      ensures issued[|old(issued)| + |blocks|] == Write(start, Header(old(disk)[start], []))
    {
      InstallTrans(false);
      n := 0;
      assert block[..n] == [];
      WriteHead();
    }

    /** The four phases of a commit that has something to write. */
    method CommitPhases(ghost blocks: seq<nat>)
      requires Valid() && Logged() && blocks == block[..n] && n > 0
      modifies this`dirty, this`disk, this`issued, this`pins, this`n
      ensures Valid() && n == 0 && pins == P.UnpinAll(old(pins), blocks)
      ensures old(issued) <= issued && CommitWrites(issued[|old(issued)|..], old(disk)[start], start, blocks, old(dirty))
    {
      LogTransaction(blocks);
      ghost var logged := issued;
      InstallTransaction(blocks);
      CommitParts(old(issued), logged, issued, old(disk)[start], start, blocks, old(dirty));
    }

    /**
     `commit`: the writes it issues are CommitWrites, so CommitAtomic speaks about
     it.  Afterwards the logged blocks are on the disk as the callers left them,
     other home blocks are as before, and the log is empty.
     */
    method Commit(ghost blocks: seq<nat>)
      requires Valid() && Logged() && Quiet() && blocks == block[..n]
      modifies this`dirty, this`disk, this`issued, this`pins, this`n
      ensures Valid() && Logged() && Quiet() && n == 0 && pins == P.UnpinAll(old(pins), blocks)
      ensures old(issued) <= issued && CommitWrites(issued[|old(issued)|..], old(disk)[start], start, blocks, old(dirty))
      ensures |disk| == |old(disk)| && forall b :: Home(|disk|, start, b) ==> disk[b] == NewValue(old(disk), blocks, old(dirty), b)
    {
      if n > 0 {
        CommitPhases(blocks);
        CommitDone(boot, old(issued), issued, old(disk), start, blocks, old(dirty));
      }
    }

    // ------------------------------------------------------------ recovery

    method ReadHead()
      requires Valid() && ValidDisk(disk, start) && n == 0 && dirty == map[]
      modifies this`n, block
      ensures Valid() && n == disk[start][0]
      ensures forall i :: 0 <= i < n ==> block[i] == disk[start][i + 1]
    {
      var hb := Bread(start);
      var i := 0;
      while i < hb[0]
        invariant 0 <= i <= hb[0] && hb == disk[start] && n == 0 && Valid()
        invariant forall j :: 0 <= j < i ==> block[j] == disk[start][j + 1]
      {
        assert Home(|disk|, start, hb[i + 1]);
        block[i] := hb[i + 1];
        i := i + 1;
      }
      n := hb[0];
    }

    /** The phases of a recovery. */
    method RecoverPhases()
      requires Valid() && ValidDisk(disk, start) && n == 0 && dirty == map[]
      modifies this`n, this`dirty, this`disk, this`issued, this`pins, block
      ensures Valid() && n == 0 && pins == old(pins) && dirty == map[]
      ensures old(issued) <= issued && RecoverWrites(issued[|old(issued)|..], old(disk), start)
    {
      ReadHead();
      ghost var blocks := block[..n];
      InstallTrans(true);
      ghost var installed := issued;
      n := 0;
      assert block[..n] == [];
      WriteHead();
      RecoverParts(old(issued), installed, issued, old(disk), start, blocks);
    }

    /** `recover_from_log`, run at boot: the writes it issues are RecoverWrites. */
    method RecoverFromLog()
      requires Valid() && ValidDisk(disk, start) && n == 0 && dirty == map[]
      modifies this`n, this`dirty, this`disk, this`issued, this`pins, block
      ensures Valid() && n == 0 && pins == old(pins) && dirty == map[]
      ensures old(issued) <= issued && RecoverWrites(issued[|old(issued)|..], old(disk), start)
      ensures disk == Apply(old(disk), issued[|old(issued)|..])
      ensures SameDurable(disk, old(disk), start) && Quiet() && Logged()
    {
      RecoverPhases();
      RecoverDone(boot, old(issued), issued, old(disk), start);
    }

    // ------------------------------------------- operations under log.lock

    /** One turn of `begin_op`'s loop; false means the caller goes to sleep. */
    method TryBeginOp() returns (admitted: bool)
      requires Valid()
      modifies this`outstanding
      ensures Valid() && admitted == P.Admits(old(View())) && View() == P.Begun(old(View()))
    {
      if committing {
        admitted := false;
      } else if n + (outstanding + 1) * MAXOPBLOCKS > LOGBLOCKS {
        admitted := false;
      } else {
        outstanding := outstanding + 1;
        admitted := true;
      }
    }

    /** The first critical section of `end_op`. */
    method EndOp() returns (panic: bool, doCommit: bool)
      requires Valid()
      modifies this`outstanding, this`committing
      ensures Valid() && panic == P.EndPanics(old(View()))
      ensures !panic ==> View() == P.Ended(old(View())) && doCommit == (View().outstanding == 0)
    {
      panic, doCommit := false, false;
      outstanding := outstanding - 1;
      if committing {
        panic := true;
        return;
      }
      if outstanding == 0 {
        doCommit := true;
        committing := true;
      }
    }

    /** The second critical section of `end_op`, after `commit`. */
    method FinishCommit()
      requires Valid()
      modifies this`committing, this`ncommit
      ensures Valid() && View() == P.Finished(old(View()))
    {
      committing := false;
      ncommit := ncommit + 1;
    }

    /** Record block `b`, whose buffer the caller has changed, absorbing repeats. */
    method LogWrite(b: nat) returns (panic: bool)
      requires Valid() && b in dirty && Home(|disk|, start, b)
      modifies this`n, this`pins, block
      ensures panic == P.WritePanics(old(View())) && Valid() && (old(Logged()) ==> Logged())
      ensures View() == if panic then old(View()) else P.Recorded(old(View()), b)
      ensures !panic ==> forall x :: x in block[..n] <==> x in old(block[..n]) || x == b
      ensures !panic && b !in old(block[..n]) ==> pins == old(pins)[b := P.Pins(old(pins), b) + 1]
      ensures panic || b in old(block[..n]) ==> pins == old(pins)
    {
      panic := false;
      if n >= LOGBLOCKS || outstanding < 1 {
        panic := true;
        return;
      }
      var i := 0;
      while i < n
        invariant 0 <= i <= n && b !in block[..i]
      {
        if block[i] == b { break; }
        i := i + 1;
      }
      ghost var was := block[..n];
      forall x ensures x in P.Recorded(View(), b).blocks <==> x in was || x == b { P.RecordLogs(View(), b, x); }
      assert i < n ==> was[i] == b;
      block[i] := b;
      if i == n {
        pins := P.Pin(pins, b, 1);
        n := n + 1;
        assert block[..n] == was + [b];
      } else {
        assert block[..n] == was;
      }
    }

    /**
     A change that is logged reaches the disk with the next commit, and so does
     every change logged before it; nothing else does.
     */
    method WriteThrough(b: nat, data: Block) returns (panic: bool)
      requires Valid() && Logged() && Quiet() && Home(|disk|, start, b)
      modifies this, block
      ensures panic == P.WritePanics(old(View()))
      ensures !panic ==> Valid() && Quiet() && |disk| == |old(disk)| && disk[b] == data
      ensures !panic ==> forall x :: Home(|disk|, start, x) && x != b ==>
        disk[x] == if x in old(block[..n]) && x in old(dirty) then old(dirty)[x] else old(disk)[x]
    {
      Modify(b, data);
      panic := LogWrite(b);
      if !panic { Commit(block[..n]); }
    }
  }

  ghost predicate SameLog(d: seq<Block>, e: seq<Block>, start: nat) {
    |d| == |e| && forall s :: start <= s <= start + LOGBLOCKS && 0 <= s < |d| ==> d[s] == e[s]
  }

  /** The loop of `write_head` builds the header. */
  lemma HeaderBuilt(was: Block, blocks: seq<nat>, hb: Block)
    requires |blocks| <= LOGBLOCKS && hb[0] == |blocks| && forall j :: 1 + |blocks| <= j < WORDS ==> hb[j] == was[j]
    requires forall j :: 0 <= j < |blocks| ==> hb[1 + j] == blocks[j]
    ensures hb == Header(was, blocks)
  {
    forall j | 1 <= j <= |blocks| ensures hb[j] == Header(was, blocks)[j] {
      var i := j - 1;
      assert hb[1 + i] == blocks[i];
    }
  }

  /** The two halves of a commit, put together. */
  lemma CommitParts(base: seq<Write>, logged: seq<Write>, all: seq<Write>,
                    was: Block, start: nat, blocks: seq<nat>, data: map<nat, Block>)
    requires 0 < |blocks| <= LOGBLOCKS && forall i :: 0 <= i < |blocks| ==> blocks[i] in data
    requires base <= logged <= all && |logged| == |base| + |blocks| + 1 && |all| == |logged| + |blocks| + 1
    requires forall i :: 0 <= i < |blocks| ==> logged[|base| + i] == Write(start + 1 + i, data[blocks[i]])
    requires logged[|base| + |blocks|] == Write(start, Header(was, blocks))
    requires forall i :: 0 <= i < |blocks| ==> all[|logged| + i] == Write(blocks[i], data[blocks[i]])
    requires all[|logged| + |blocks|] == Write(start, Header(Header(was, blocks), []))
    ensures CommitWrites(all[|base|..], was, start, blocks, data)
  {
    var n, ws := |blocks|, all[|base|..];
    forall i | 0 <= i < n
      ensures ws[i] == Write(start + 1 + i, data[blocks[i]]) && ws[n + 1 + i] == Write(blocks[i], data[blocks[i]])
    {
      assert ws[i] == logged[|base| + i];
      assert ws[n + 1 + i] == all[|logged| + i];
    }
  }

  /** The phases of a recovery, put together. */
  lemma RecoverParts(base: seq<Write>, installed: seq<Write>, all: seq<Write>, d: seq<Block>, start: nat, blocks: seq<nat>)
    requires ValidDisk(d, start) && base <= installed && |installed| == |base| + |blocks| && |blocks| == d[start][0]
    requires forall i :: 0 <= i < |blocks| ==> blocks[i] == d[start][i + 1]
    requires forall i :: 0 <= i < |blocks| ==> installed[|base| + i] == Write(blocks[i], d[start + 1 + i])
    requires all == installed + [Write(start, Header(d[start], []))]
    ensures base <= all && RecoverWrites(all[|base|..], d, start)
  {
    var n, ws := d[start][0], all[|base|..];
    forall i: nat | i < n ensures CopiesHome(ws, d, start, i) {
      assert ws[i] == installed[|base| + i] == Write(blocks[i], d[start + 1 + i]);
    }
  }

  /** After all its writes a recovery has changed nothing that a restart would show, and emptied the log. */
  lemma RecoverDone(boot: seq<Block>, base: seq<Write>, all: seq<Write>, d: seq<Block>, start: nat)
    requires d == Apply(boot, base) && ValidDisk(d, start) && base <= all && RecoverWrites(all[|base|..], d, start)
    ensures var e := Apply(boot, all); e == Apply(d, all[|base|..]) && SameDurable(e, d, start) && e[start][0] == 0
  {
    AppliedRest(boot, base, all);
    RecoverAll(d, start, all[|base|..]);
  }

  lemma AppliedRest(boot: seq<Block>, base: seq<Write>, all: seq<Write>)
    requires base <= all
    ensures Apply(boot, all) == Apply(Apply(boot, base), all[|base|..])
  {
    assert all == base + all[|base|..];
    ApplyAppend(boot, base, all[|base|..]);
  }

  /** After all its writes a commit has brought its blocks home and emptied the log. */
  lemma CommitDone(boot: seq<Block>, base: seq<Write>, all: seq<Write>, d: seq<Block>, start: nat, blocks: seq<nat>, data: map<nat, Block>)
    requires d == Apply(boot, base) && start + LOGBLOCKS < |d| && d[start][0] == 0 && Loggable(|d|, start, blocks, data) && blocks != []
    requires base <= all && CommitWrites(all[|base|..], d[start], start, blocks, data)
    ensures var e := Apply(boot, all);
      |e| == |d| && e[start][0] == 0 && forall b :: Home(|d|, start, b) ==> e[b] == NewValue(d, blocks, data, b)
  {
    AppliedRest(boot, base, all);
    CommitAll(d, start, blocks, data, all[|base|..]);
  }
}
