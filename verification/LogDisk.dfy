/**
 The disk side of the redo log: what a commit and a recovery write, block by
 block, and what a restart makes of the disk if the machine stops between any
 two of those writes.

 A block is 1024 bytes, seen here as 256 words, because the header block holds
 a count and block numbers.  `write_head` overwrites only the count and the
 entries in use; stale words behind them stay, as in the code.
 */
module LogDisk {

  import opened Common

  const WORDS: nat := 256

  type Block = b: seq<int> | |b| == WORDS witness seq(WORDS, _ => 0)

  datatype Write = Write(bno: nat, data: Block)

  // ---------------------------------------------------------------- the disk

  /** The log occupies the header block `start` and LOGBLOCKS blocks after it. */
  predicate Home(size: nat, start: nat, b: int) {
    0 <= b < size && !(start <= b <= start + LOGBLOCKS)
  }

  function Apply(d: seq<Block>, ws: seq<Write>): (r: seq<Block>)
    ensures |r| == |d|
  {
    if ws == [] then d
    else
      var w := ws[|ws| - 1];
      var r := Apply(d, ws[..|ws| - 1]);
      if w.bno < |r| then r[w.bno := w.data] else r
  }

  lemma ApplyNext(d: seq<Block>, ws: seq<Write>, k: nat)
    requires k < |ws| && ws[k].bno < |d|
    ensures Apply(d, ws[..k + 1]) == Apply(d, ws[..k])[ws[k].bno := ws[k].data]
  {
    assert ws[..k + 1][..k] == ws[..k];
  }

  lemma {:induction false} ApplyAppend(d: seq<Block>, xs: seq<Write>, ys: seq<Write>)
    ensures Apply(d, xs + ys) == Apply(Apply(d, xs), ys)
    decreases |ys|
  {
    if ys == [] {
      assert xs + ys == xs;
    } else {
      assert (xs + ys)[..|xs + ys| - 1] == xs + ys[..|ys| - 1];
      ApplyAppend(d, xs, ys[..|ys| - 1]);
    }
  }

  lemma ApplySplit(d: seq<Block>, ws: seq<Write>, m: nat, k: nat)
    requires m <= k <= |ws|
    ensures Apply(d, ws[..k]) == Apply(Apply(d, ws[..m]), ws[m..][..k - m])
  {
    assert ws[..k] == ws[..m] + ws[m..][..k - m];
    ApplyAppend(d, ws[..m], ws[m..][..k - m]);
  }

  // -------------------------------------------------------------- the header

  function Header(was: Block, blocks: seq<nat>): (h: Block)
    requires |blocks| <= LOGBLOCKS
    ensures h[0] == |blocks|
  {
    var entries: seq<int> := blocks;
    [|blocks| as int] + entries + was[1 + |blocks|..]
  }

  /** The header block on the disk names home blocks only, and not too many. */
  predicate ValidDisk(d: seq<Block>, start: nat) {
    && start + LOGBLOCKS < |d|
    && 0 <= d[start][0] <= LOGBLOCKS
    && forall i :: 1 <= i <= d[start][0] ==> Home(|d|, start, d[start][i])
  }

  /** What block `b` reads as once the first `k` logged blocks are copied home. */
  function Installed(d: seq<Block>, start: nat, k: nat, b: nat): Block
    requires ValidDisk(d, start) && k <= d[start][0] && b < |d|
  {
    if k == 0 then d[b]
    else if d[start][k] == b then d[start + k]
    else Installed(d, start, k - 1, b)
  }

  /** The durable contents of home block `b`: what a restart will show. */
  function Durable(d: seq<Block>, start: nat, b: nat): Block
    requires ValidDisk(d, start) && b < |d|
  {
    Installed(d, start, d[start][0], b)
  }

  /** Two disks agree on what a restart will show in every home block. */
  ghost predicate SameDurable(d: seq<Block>, e: seq<Block>, start: nat) {
    && ValidDisk(d, start) && ValidDisk(e, start) && |d| == |e|
    && forall b :: Home(|d|, start, b) ==> Durable(d, start, b) == Durable(e, start, b)
  }

  // ------------------------------------------- the writes of commit, recovery

  ghost predicate Loggable(size: nat, start: nat, blocks: seq<nat>, data: map<nat, Block>) {
    && |blocks| <= LOGBLOCKS
    && forall i :: 0 <= i < |blocks| ==> blocks[i] in data && Home(size, start, blocks[i])
  }

  /** `commit`: the logged data to the slots, the header, the same data home, the empty header. */
  ghost predicate CommitWrites(ws: seq<Write>, head: Block, start: nat, blocks: seq<nat>, data: map<nat, Block>)
    requires |blocks| <= LOGBLOCKS && forall i :: 0 <= i < |blocks| ==> blocks[i] in data
  {
    var n := |blocks|;
    if n == 0 then ws == []
    else
      && |ws| == 2 * n + 2
      && (forall i :: 0 <= i < n ==> ws[i] == Write(start + 1 + i, data[blocks[i]]))
      && ws[n] == Write(start, Header(head, blocks))
      && (forall i :: 0 <= i < n ==> ws[n + 1 + i] == Write(blocks[i], data[blocks[i]]))
      && ws[2 * n + 1] == Write(start, Header(Header(head, blocks), []))
  }

  /** `recover_from_log`: each slot home, then the empty header. */
  ghost predicate RecoverWrites(ws: seq<Write>, d: seq<Block>, start: nat)
    requires ValidDisk(d, start)
  {
    var n := d[start][0];
    && |ws| == n + 1
    && (forall i {:trigger CopiesHome(ws, d, start, i)} :: 0 <= i < n ==> CopiesHome(ws, d, start, i))
    && ws[n] == Write(start, Header(d[start], []))
  }

  /** Write `i` copies log slot `i` to its home. */
  ghost predicate CopiesHome(ws: seq<Write>, d: seq<Block>, start: nat, i: nat)
    requires start + LOGBLOCKS < |d| && i < LOGBLOCKS && i < |ws|
  {
    ws[i].bno == d[start][i + 1] && ws[i].data == d[start + i + 1]
  }

  // ------------------------------------------------------------------ recovery

  /** Overwriting the home of a logged block never shows: the log wins. */
  lemma {:induction false} HomeWrite(d: seq<Block>, start: nat, i: nat, x: Block, k: nat, b: nat)
    requires ValidDisk(d, start) && 1 <= i <= d[start][0] && k <= d[start][0] && Home(|d|, start, b)
    requires Home(|d|, start, d[start][i])
    ensures var d' := d[d[start][i] := x];
            ValidDisk(d', start) && d'[start] == d[start]
            && (k >= i || b != d[start][i] ==> Installed(d', start, k, b) == Installed(d, start, k, b))
    decreases k
  {
    if k > 0 { HomeWrite(d, start, i, x, k - 1, b); }
  }

  /** After `k` of the home writes: the log is untouched, the first k are home. */
  lemma {:induction false} RecoverPrefix(d: seq<Block>, start: nat, ws: seq<Write>, k: nat)
    requires ValidDisk(d, start) && RecoverWrites(ws, d, start) && k <= d[start][0]
    ensures var e := Apply(d, ws[..k]);
            && SameDurable(e, d, start)
            && (forall s :: start <= s <= start + LOGBLOCKS ==> e[s] == d[s])
            && (forall b :: Home(|d|, start, b) ==> e[b] == Installed(d, start, k, b))
  {
    if k > 0 {
      RecoverPrefix(d, start, ws, k - 1);
      var e := Apply(d, ws[..k - 1]);
      assert CopiesHome(ws, d, start, k - 1) && Home(|d|, start, d[start][k]);
      ApplyNext(d, ws, k - 1);
      forall b | Home(|d|, start, b)
        ensures ValidDisk(Apply(d, ws[..k]), start)
        ensures Durable(Apply(d, ws[..k]), start, b) == Durable(d, start, b)
      {
        HomeWrite(e, start, k, d[start + k], e[start][0], b);
      }
    } else {
      assert ws[..0] == [];
    }
  }

  /** Under an empty header, the home blocks are what a restart shows. */
  lemma EmptyLog(e: seq<Block>, start: nat, h: Block)
    requires start + LOGBLOCKS < |e| && h[0] == 0
    ensures ValidDisk(e[start := h], start)
    ensures forall b :: Home(|e|, start, b) ==> Durable(e[start := h], start, b) == e[b]
  {
  }

  /**
   An interrupted recovery loses nothing: wherever it stops, a restart will
   show what it would have shown before.  A finished recovery has copied all
   of that home and emptied the log.
   */
  lemma RecoveryRestartable(d: seq<Block>, start: nat, ws: seq<Write>, k: nat)
    requires ValidDisk(d, start) && RecoverWrites(ws, d, start) && k <= |ws|
    ensures SameDurable(Apply(d, ws[..k]), d, start)
    ensures k == |ws| ==>
              var e := Apply(d, ws[..k]);
              e[start][0] == 0 && forall b :: Home(|d|, start, b) ==> e[b] == Durable(d, start, b)
  {
    var n := d[start][0];
    if k <= n {
      RecoverPrefix(d, start, ws, k);
    } else {
      RecoverPrefix(d, start, ws, n);
      ApplyNext(d, ws, n);
      EmptyLog(Apply(d, ws[..n]), start, Header(d[start], []));
    }
  }

  lemma RecoverAll(d: seq<Block>, start: nat, ws: seq<Write>)
    requires ValidDisk(d, start) && RecoverWrites(ws, d, start)
    ensures SameDurable(Apply(d, ws), d, start) && Apply(d, ws)[start][0] == 0
  {
    RecoveryRestartable(d, start, ws, |ws|);
    assert ws[..|ws|] == ws;
  }

  // -------------------------------------------------------------------- commit

  /** Filling log slots changes no block but those slots. */
  lemma {:induction false} LogPrefix(d: seq<Block>, start: nat, blocks: seq<nat>, data: map<nat, Block>, ws: seq<Write>, k: nat)
    requires start + LOGBLOCKS < |d| && Loggable(|d|, start, blocks, data) && k <= |blocks|
    requires CommitWrites(ws, d[start], start, blocks, data)
    ensures var e := Apply(d, ws[..k]);
            && (forall b :: 0 <= b < |d| && !(start < b <= start + k) ==> e[b] == d[b])
            && (forall i :: 0 <= i < k ==> e[start + 1 + i] == data[blocks[i]])
  {
    if k > 0 {
      LogPrefix(d, start, blocks, data, ws, k - 1);
      ApplyNext(d, ws, k - 1);
    } else {
      assert ws[..0] == [];
    }
  }

  /** What a header over filled slots promises: the logged data, else the old block. */
  lemma {:induction false} LoggedValues(d: seq<Block>, start: nat, blocks: seq<nat>, data: map<nat, Block>, k: nat, b: nat)
    requires ValidDisk(d, start) && Loggable(|d|, start, blocks, data) && Home(|d|, start, b)
    requires d[start][0] == |blocks| && k <= |blocks|
    requires forall i :: 0 <= i < |blocks| ==> d[start][i + 1] == blocks[i] && d[start + 1 + i] == data[blocks[i]]
    ensures b in blocks[..k] ==> b in data
    ensures Installed(d, start, k, b) == if b in blocks[..k] then data[b] else d[b]
  {
    if k > 0 {
      LoggedValues(d, start, blocks, data, k - 1, b);
      assert blocks[..k] == blocks[..k - 1] + [blocks[k - 1]];
      assert d[start][k - 1 + 1] == blocks[k - 1] && d[start + 1 + (k - 1)] == data[blocks[k - 1]];
    }
  }

  lemma HeaderEntry(was: Block, blocks: seq<nat>, i: nat)
    requires |blocks| <= LOGBLOCKS && i < |blocks|
    ensures Header(was, blocks)[i + 1] == blocks[i]
  {
  }

  /** After the header write, the rest of a commit is a recovery. */
  lemma CommitTail(head: Block, start: nat, blocks: seq<nat>, data: map<nat, Block>, ws: seq<Write>, c: seq<Block>)
    requires ValidDisk(c, start) && Loggable(|c|, start, blocks, data) && blocks != []
    requires CommitWrites(ws, head, start, blocks, data) && c[start] == Header(head, blocks)
    requires forall i :: 0 <= i < |blocks| ==> c[start + 1 + i] == data[blocks[i]]
    ensures RecoverWrites(ws[|blocks| + 1..], c, start)
  {
    var n := |blocks|;
    var rest := ws[n + 1..];
    forall i: nat | i < n ensures CopiesHome(rest, c, start, i) {
      HeaderEntry(head, blocks, i);
      assert rest[i] == ws[n + 1 + i] && c[start + 1 + i] == data[blocks[i]];
    }
    assert rest[n] == ws[2 * n + 1];
  }

  /** The disk at the commit point, right after `write_head`. */
  lemma CommitPoint(d: seq<Block>, start: nat, blocks: seq<nat>, data: map<nat, Block>, ws: seq<Write>)
    requires start + LOGBLOCKS < |d| && Loggable(|d|, start, blocks, data) && blocks != []
    requires CommitWrites(ws, d[start], start, blocks, data)
    ensures var c := Apply(d, ws[..|blocks| + 1]);
            && ValidDisk(c, start) && c[start] == Header(d[start], blocks)
            && (forall i :: 0 <= i < |blocks| ==> c[start + 1 + i] == data[blocks[i]])
            && (forall b :: Home(|d|, start, b) ==> c[b] == d[b])
            && RecoverWrites(ws[|blocks| + 1..], c, start)
  {
    var n := |blocks|;
    LogPrefix(d, start, blocks, data, ws, n);
    ApplyNext(d, ws, n);
    var c := Apply(d, ws[..n + 1]);
    forall i | 1 <= i <= c[start][0] ensures Home(|c|, start, c[start][i]) {
      var j := i - 1;
      HeaderEntry(d[start], blocks, j);
      assert blocks[j] in data;
    }
    CommitTail(d[start], start, blocks, data, ws, c);
  }

  /** Before the header write, a restart shows the disk as it was. */
  lemma BeforeCommitPoint(d: seq<Block>, start: nat, blocks: seq<nat>, data: map<nat, Block>, ws: seq<Write>, k: nat)
    requires ValidDisk(d, start) && d[start][0] == 0 && Loggable(|d|, start, blocks, data) && blocks != []
    requires CommitWrites(ws, d[start], start, blocks, data) && k <= |blocks|
    ensures SameDurable(Apply(d, ws[..k]), d, start)
  {
    LogPrefix(d, start, blocks, data, ws, k);
  }

  /** What transaction `blocks` makes of home block `b`. */
  function NewValue(d: seq<Block>, blocks: seq<nat>, data: map<nat, Block>, b: nat): Block
    requires b < |d|
  {
    if b in blocks && b in data then data[b] else d[b]
  }

  /** From the header write on, a commit does what a recovery would do. */
  lemma AfterCommitPoint(d: seq<Block>, start: nat, blocks: seq<nat>, data: map<nat, Block>, ws: seq<Write>, k: nat)
    requires ValidDisk(d, start) && d[start][0] == 0 && Loggable(|d|, start, blocks, data) && blocks != []
    requires CommitWrites(ws, d[start], start, blocks, data) && |blocks| < k <= |ws|
    ensures var c := Apply(d, ws[..|blocks| + 1]);
            && ValidDisk(c, start) && SameDurable(Apply(d, ws[..k]), c, start)
            && (k == |ws| ==> Apply(d, ws[..k])[start][0] == 0)
            && (k == |ws| ==> forall b :: Home(|d|, start, b) ==> Apply(d, ws[..k])[b] == Durable(c, start, b))
  {
    var n := |blocks|;
    CommitPoint(d, start, blocks, data, ws);
    var c := Apply(d, ws[..n + 1]);
    ApplySplit(d, ws, n + 1, k);
    RecoveryRestartable(c, start, ws[n + 1..], k - n - 1);
  }

  /** At the commit point a restart already shows the transaction. */
  lemma CommitValue(d: seq<Block>, start: nat, blocks: seq<nat>, data: map<nat, Block>, ws: seq<Write>, b: nat)
    requires start + LOGBLOCKS < |d| && Loggable(|d|, start, blocks, data) && blocks != [] && Home(|d|, start, b)
    requires CommitWrites(ws, d[start], start, blocks, data)
    ensures var c := Apply(d, ws[..|blocks| + 1]); ValidDisk(c, start) && Durable(c, start, b) == NewValue(d, blocks, data, b)
  {
    CommitPoint(d, start, blocks, data, ws);
    HeadedValue(Apply(d, ws[..|blocks| + 1]), d[start], start, blocks, data, b);
  }

  /** A disk whose header names `blocks` over filled slots promises their data. */
  lemma HeadedValue(c: seq<Block>, was: Block, start: nat, blocks: seq<nat>, data: map<nat, Block>, b: nat)
    requires ValidDisk(c, start) && Loggable(|c|, start, blocks, data) && Home(|c|, start, b) && c[start] == Header(was, blocks)
    requires forall i :: 0 <= i < |blocks| ==> c[start + 1 + i] == data[blocks[i]]
    ensures Durable(c, start, b) == NewValue(c, blocks, data, b)
  {
    forall i | 0 <= i < |blocks| ensures c[start][i + 1] == blocks[i] { HeaderEntry(was, blocks, i); }
    LoggedValues(c, start, blocks, data, |blocks|, b);
    assert blocks[..|blocks|] == blocks;
  }

  /**
   Crash atomicity.  Stop a commit after any `k` of its block writes: a restart
   shows every home block as it was when `k` does not reach the header write,
   and every logged block with its new data (the others as they were) when it does.
   */
  lemma CommitAtomic(d: seq<Block>, start: nat, blocks: seq<nat>, data: map<nat, Block>, ws: seq<Write>, k: nat)
    requires ValidDisk(d, start) && d[start][0] == 0 && Loggable(|d|, start, blocks, data) && blocks != []
    requires CommitWrites(ws, d[start], start, blocks, data) && k <= |ws|
    ensures var e := Apply(d, ws[..k]);
            && ValidDisk(e, start)
            && (forall b :: Home(|d|, start, b) ==>
                  Durable(e, start, b) == if k > |blocks| then NewValue(d, blocks, data, b) else d[b])
            && (k == |ws| ==> e[start][0] == 0)
            && (k == |ws| ==> forall b :: Home(|d|, start, b) ==> e[b] == NewValue(d, blocks, data, b))
  {
    if k <= |blocks| {
      BeforeCommitPoint(d, start, blocks, data, ws, k);
    } else {
      AfterCommitPoint(d, start, blocks, data, ws, k);
      var c := Apply(d, ws[..|blocks| + 1]);
      forall b | Home(|d|, start, b) ensures Durable(c, start, b) == NewValue(d, blocks, data, b) {
        CommitValue(d, start, blocks, data, ws, b);
      }
    }
  }

  lemma CommitAll(d: seq<Block>, start: nat, blocks: seq<nat>, data: map<nat, Block>, ws: seq<Write>)
    requires start + LOGBLOCKS < |d| && d[start][0] == 0 && Loggable(|d|, start, blocks, data) && blocks != []
    requires CommitWrites(ws, d[start], start, blocks, data)
    ensures Apply(d, ws)[start][0] == 0
    ensures forall b :: Home(|d|, start, b) ==> Apply(d, ws)[b] == NewValue(d, blocks, data, b)
  {
    CommitAtomic(d, start, blocks, data, ws, |ws|);
    assert ws[..|ws|] == ws;
  }

  // ---------------------------------------------------------------- whole runs

  /** A commit or a recovery, with its writes and how many of them reached the disk. */
  datatype Event =
    | Commit(blocks: seq<nat>, data: map<nat, Block>, ws: seq<Write>, reached: nat)
    | Recover(ws: seq<Write>, reached: nat)

  /** `Up`: the log is empty and transactions may commit.  `Down`: the machine stopped. */
  datatype Machine = Up(disk: seq<Block>) | Down(disk: seq<Block>)

  ghost predicate Legal(m: Machine, start: nat, e: Event) {
    && start < |m.disk|
    && e.reached <= |e.ws|
    && match e
       case Commit(blocks, data, ws, reached) =>
         && m.Up? && blocks != [] && Loggable(|m.disk|, start, blocks, data)
         && CommitWrites(ws, m.disk[start], start, blocks, data)
       case Recover(ws, reached) =>
         m.Down? && ValidDisk(m.disk, start) && RecoverWrites(ws, m.disk, start)
  }

  function Next(m: Machine, e: Event): Machine
    requires e.reached <= |e.ws|
  {
    var d := Apply(m.disk, e.ws[..e.reached]);
    if e.reached == |e.ws| then Up(d) else Down(d)
  }

  /** The specification: a transaction happens entirely, at its header write, or not at all. */
  function SpecNext(home: map<nat, Block>, e: Event): map<nat, Block> {
    match e
    case Commit(blocks, data, _, reached) =>
      if reached > |blocks| then map b | b in home :: if b in blocks && b in data then data[b] else home[b] else home
    case Recover(_, _) => home
  }

  ghost predicate Represents(m: Machine, start: nat, home: map<nat, Block>) {
    && ValidDisk(m.disk, start)
    && (forall b :: b in home <==> Home(|m.disk|, start, b))
    && (forall b :: b in home ==> Durable(m.disk, start, b) == home[b])
    && (m.Up? ==> m.disk[start][0] == 0)
  }

  lemma NextRepresents(m: Machine, start: nat, home: map<nat, Block>, e: Event)
    requires Represents(m, start, home) && Legal(m, start, e)
    ensures Represents(Next(m, e), start, SpecNext(home, e))
  {
    match e
    case Commit(blocks, data, ws, k) => CommitAtomic(m.disk, start, blocks, data, ws, k);
    case Recover(ws, k) => RecoveryRestartable(m.disk, start, ws, k);
  }

  ghost predicate LegalRun(m: Machine, start: nat, es: seq<Event>)
    decreases |es|
  {
    es == [] || (Legal(m, start, es[0]) && LegalRun(Next(m, es[0]), start, es[1..]))
  }

  function Run(m: Machine, start: nat, es: seq<Event>): Machine
    requires LegalRun(m, start, es)
    decreases |es|
  {
    if es == [] then m else Run(Next(m, es[0]), start, es[1..])
  }

  function SpecRun(home: map<nat, Block>, es: seq<Event>): map<nat, Block> {
    if es == [] then home else SpecRun(SpecNext(home, es[0]), es[1..])
  }

  /**
   Every run of commits and recoveries, each stopped anywhere: the durable home
   blocks are those of the transactions that reached their header write, in
   order, and whenever the machine is up they are what the home blocks hold.
   */
  lemma {:induction false} EveryRun(m: Machine, start: nat, home: map<nat, Block>, es: seq<Event>)
    requires Represents(m, start, home) && LegalRun(m, start, es)
    ensures Represents(Run(m, start, es), start, SpecRun(home, es))
    ensures Run(m, start, es).Up? ==>
              forall b :: b in SpecRun(home, es) ==>
                b < |Run(m, start, es).disk| && Run(m, start, es).disk[b] == SpecRun(home, es)[b]
    decreases |es|
  {
    if es != [] {
      NextRepresents(m, start, home, es[0]);
      EveryRun(Next(m, es[0]), start, SpecNext(home, es[0]), es[1..]);
    }
  }
}
