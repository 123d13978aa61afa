/** The on-disk redo log (src/log.c): the header format and what a disk means to
    recovery. Shared by the code of log.c and by the machine of its interleavings. */
module LogDisk {

  const BWORDS: nat := 128       // BSIZE / sizeof(int)
  const MAXOPBLOCKS: nat := 10
  const LOGSIZE: nat := 30       // MAXOPBLOCKS * 3

  /** A disk block, as words. */
  type Block = b: seq<nat> | |b| == BWORDS witness seq(BWORDS, i => 0)

  type Disk = seq<Block>

  /** Where the log lies: a header block at `start`, then up to `size - 1` data blocks. `nbuf` is the number of buffers that
      the cache has for the blocks of the disk. */
  datatype Layout = Layout(start: nat, size: nat, blocks: nat, nbuf: nat) {

    predicate Valid() { 0 < size && start + size <= blocks }

    /** Blocks outside the log: the home locations of file-system data. */
    predicate Home(b: nat) { b < blocks && !(start <= b < start + size) }
  }

  // ---- The header block ----------------------------------------------------------------------

  /** Word 0 counts the logged blocks; the next words are their numbers. */
  function Header(b: Block): (lh: seq<nat>)
    requires b[0] <= LOGSIZE
    ensures |lh| == b[0]
  {
    b[1..1 + b[0]]
  }

  /** Writing a header touches only the words it uses. */
  function WithHeader(b: Block, lh: seq<nat>): (r: Block)
    requires |lh| <= LOGSIZE
  {
    [|lh|] + lh + b[1 + |lh|..]
  }

  lemma HeaderRoundTrip(b: Block, lh: seq<nat>)
    requires |lh| <= LOGSIZE
    ensures WithHeader(b, lh)[0] == |lh| && Header(WithHeader(b, lh)) == lh
    ensures forall k :: 0 <= k < BWORDS ==>
              WithHeader(b, lh)[k] == if k == 0 then |lh| else if k <= |lh| then lh[k - 1] else b[k]
  {
  }

  /** A list of blocks that fits the log: distinct home blocks. */
  ghost predicate Loggable(lay: Layout, lh: seq<nat>)
  {
    && |lh| <= LOGSIZE && |lh| <= lay.size - 1
    && (forall i :: 0 <= i < |lh| ==> lay.Home(lh[i]))
    && (forall i, j :: 0 <= i < j < |lh| ==> lh[i] != lh[j])
  }

  ghost predicate DiskOk(lay: Layout, d: Disk)
  {
    lay.Valid() && |d| == lay.blocks && d[lay.start][0] <= LOGSIZE && Loggable(lay, Header(d[lay.start]))
  }

  // ---- What a disk means -------------------------------------------------------------------------

  /** The position of block b in a list, or the list's length. */
  function Find(lh: seq<nat>, b: nat): (i: nat)
    ensures i <= |lh| && (i < |lh| ==> lh[i] == b)
    ensures i == |lh| <==> b !in lh
  {
    if lh == [] || lh[0] == b then 0
    else 1 + Find(lh[1..], b)
  }

  /** Block b as it will be once the log on disk has been installed. */
  ghost function Logical(lay: Layout, d: Disk, b: nat): Block
    requires DiskOk(lay, d) && b < lay.blocks
  {
    var lh := Header(d[lay.start]);
    var i := Find(lh, b);
    if i < |lh| then d[lay.start + 1 + i] else d[b]
  }

  /** Two disks that recovery turns into the same file system. */
  ghost predicate Same(lay: Layout, d: Disk, e: Disk)
    requires DiskOk(lay, d) && DiskOk(lay, e)
  {
    forall b: nat :: lay.Home(b) ==> Logical(lay, d, b) == Logical(lay, e, b)
  }

  lemma FindIs(lay: Layout, lh: seq<nat>, i: nat)
    requires Loggable(lay, lh) && i < |lh|
    ensures Find(lh, lh[i]) == i
  {
  }

  /** In the words of the disk: the block that word k of the header names is in block k of the log, and every other is at home. */
  lemma LogicalIs(lay: Layout, d: Disk, b: nat)
    requires DiskOk(lay, d) && b < lay.blocks
    ensures forall k :: 1 <= k <= d[lay.start][0] && d[lay.start][k] == b ==> Logical(lay, d, b) == d[lay.start + k]
    ensures (forall k :: 1 <= k <= d[lay.start][0] ==> d[lay.start][k] != b) ==> Logical(lay, d, b) == d[b]
  {
    var lh := Header(d[lay.start]);
    forall k | 1 <= k <= d[lay.start][0] && d[lay.start][k] == b ensures Find(lh, b) == k - 1 {
      FindIs(lay, lh, k - 1);
    }
    if Find(lh, b) < |lh| {
      assert d[lay.start][1 + Find(lh, b)] == b;
    }
  }

  /** Copying a logged block home again changes nothing that recovery would not do anyway. */
  lemma InstallIsSilent(lay: Layout, d: Disk, i: nat)
    requires DiskOk(lay, d) && i < |Header(d[lay.start])|
    ensures var e := d[Header(d[lay.start])[i] := d[lay.start + 1 + i]];
            DiskOk(lay, e) && e[lay.start] == d[lay.start] && Same(lay, e, d)
  {
    var lh := Header(d[lay.start]);
    FindIs(lay, lh, i);
    var e := d[lh[i] := d[lay.start + 1 + i]];
    assert lay.Home(lh[i]);
    assert e[lay.start] == d[lay.start];
    forall b | lay.Home(b) ensures Logical(lay, e, b) == Logical(lay, d, b) {
    }
  }

  /** Writing a log block while the header says the log is empty goes unnoticed. */
  lemma LogAppendIsSilent(lay: Layout, d: Disk, i: nat, x: Block)
    requires DiskOk(lay, d) && d[lay.start][0] == 0 && i + 1 < lay.size
    ensures DiskOk(lay, d[lay.start + 1 + i := x]) && Same(lay, d[lay.start + 1 + i := x], d)
    ensures d[lay.start + 1 + i := x][lay.start] == d[lay.start]
  {
    var e := d[lay.start + 1 + i := x];
    forall b | lay.Home(b) ensures Logical(lay, e, b) == Logical(lay, d, b) {
    }
  }

  /** Clearing the header after every block has been installed changes nothing. */
  lemma ClearIsSilent(lay: Layout, d: Disk)
    requires DiskOk(lay, d)
    requires var lh := Header(d[lay.start]); forall i :: 0 <= i < |lh| ==> d[lh[i]] == d[lay.start + 1 + i]
    ensures var e := d[lay.start := WithHeader(d[lay.start], [])];
            DiskOk(lay, e) && e[lay.start][0] == 0 && Same(lay, e, d)
  {
    var e := d[lay.start := WithHeader(d[lay.start], [])];
    HeaderRoundTrip(d[lay.start], []);
    forall b | lay.Home(b) ensures Logical(lay, e, b) == Logical(lay, d, b) {
    }
  }

  /** With an empty log a disk means what it holds. */
  lemma EmptyLogIsLiteral(lay: Layout, d: Disk, b: nat)
    requires DiskOk(lay, d) && d[lay.start][0] == 0 && lay.Home(b)
    ensures Logical(lay, d, b) == d[b]
  {
  }

  lemma HeaderIsWritten(lay: Layout, d: Disk, lh: seq<nat>)
    requires DiskOk(lay, d) && Loggable(lay, lh)
    ensures var e := d[lay.start := WithHeader(d[lay.start], lh)]; DiskOk(lay, e) && Header(e[lay.start]) == lh
  {
    hide WithHeader;
    HeaderRoundTrip(d[lay.start], lh);
  }

  /** The commit point: one header write makes all the logged blocks count. */
  lemma HeaderCommits(lay: Layout, d: Disk, lh: seq<nat>, b: nat)
    requires DiskOk(lay, d) && Loggable(lay, lh) && lay.Home(b)
    ensures var e := d[lay.start := WithHeader(d[lay.start], lh)];
            && DiskOk(lay, e) && Header(e[lay.start]) == lh
            && Logical(lay, e, b) == if Find(lh, b) < |lh| then d[lay.start + 1 + Find(lh, b)] else d[b]
  {
    hide WithHeader, Find;
    HeaderIsWritten(lay, d, lh);
  }

  // ---- Recovery, completed or not -----------------------------------------------------------------

  /** The disk after the first k block copies of install_trans. */
  ghost function Installed(lay: Layout, d: Disk, k: nat): (e: Disk)
    requires DiskOk(lay, d) && k <= |Header(d[lay.start])|
    ensures |e| == |d|
  {
    if k == 0 then d else Installed(lay, d, k - 1)[Header(d[lay.start])[k - 1] := d[lay.start + k]]
  }

  lemma {:induction false} InstalledSoFar(lay: Layout, d: Disk, k: nat)
    requires DiskOk(lay, d) && k <= |Header(d[lay.start])|
    ensures var e, lh := Installed(lay, d, k), Header(d[lay.start]);
            && (forall b :: lay.start <= b < lay.start + lay.size ==> e[b] == d[b])
            && (forall i :: 0 <= i < k ==> e[lh[i]] == d[lay.start + 1 + i])
            && (forall b :: 0 <= b < |d| && b !in lh[..k] ==> e[b] == d[b])
  {
    if k > 0 {
      InstalledSoFar(lay, d, k - 1);
      var lh := Header(d[lay.start]);
      assert lh[..k] == lh[..k - 1] + [lh[k - 1]];
      assert lay.Home(lh[k - 1]);
    }
  }

  /** One turn of install_trans's loop. */
  lemma NextInstall(lay: Layout, d: Disk, k: nat)
    requires DiskOk(lay, d) && k < |Header(d[lay.start])|
    ensures Header(d[lay.start])[k] < |d| && lay.start + k + 1 < |d|
    ensures Installed(lay, d, k + 1) == Installed(lay, d, k)[Header(d[lay.start])[k] := Installed(lay, d, k)[lay.start + k + 1]]
  {
    assert lay.Home(Header(d[lay.start])[k]);
    InstalledSoFar(lay, d, k);
  }

  lemma OneMoreIsSilent(lay: Layout, d: Disk, e: Disk, i: nat)
    requires DiskOk(lay, d) && DiskOk(lay, e) && e[lay.start] == d[lay.start] && Same(lay, e, d)
    requires i < |Header(d[lay.start])| && e[lay.start + 1 + i] == d[lay.start + 1 + i]
    ensures var f := e[Header(d[lay.start])[i] := d[lay.start + 1 + i]]; DiskOk(lay, f) && Same(lay, f, d)
  {
    hide Logical, Loggable;
    InstallIsSilent(lay, e, i);
  }

  lemma {:induction false} InstalledIsSilent(lay: Layout, d: Disk, k: nat)
    requires DiskOk(lay, d) && k <= |Header(d[lay.start])|
    ensures DiskOk(lay, Installed(lay, d, k)) && Same(lay, Installed(lay, d, k), d)
  {
    hide Logical;
    if k > 0 {
      InstalledIsSilent(lay, d, k - 1);
      InstalledSoFar(lay, d, k - 1);
      OneMoreIsSilent(lay, d, Installed(lay, d, k - 1), k - 1);
    }
  }

  /** The disk after recover_from_log has run to its end. */
  ghost function Recovered(lay: Layout, d: Disk): (e: Disk)
    requires DiskOk(lay, d)
    ensures |e| == |d|
  {
    var e := Installed(lay, d, |Header(d[lay.start])|);
    e[lay.start := WithHeader(e[lay.start], [])]
  }

  lemma RecoveredIsSilent(lay: Layout, d: Disk)
    requires DiskOk(lay, d)
    ensures DiskOk(lay, Recovered(lay, d)) && Recovered(lay, d)[lay.start][0] == 0 && Same(lay, Recovered(lay, d), d)
  {
    hide Installed, WithHeader, Logical;
    var n := |Header(d[lay.start])|;
    InstalledIsSilent(lay, d, n);
    InstalledSoFar(lay, d, n);
    ClearIsSilent(lay, Installed(lay, d, n));
  }

  /** A completed recovery leaves an empty log and, at home, exactly what the disk meant. */
  lemma RecoveredIsLogical(lay: Layout, d: Disk, b: nat)
    requires DiskOk(lay, d) && lay.Home(b)
    ensures Recovered(lay, d)[b] == Logical(lay, d, b)
  {
    hide Recovered, Logical;
    RecoveredIsSilent(lay, d);
    EmptyLogIsLiteral(lay, Recovered(lay, d), b);
  }

  /** Recovery of d was cut short by a crash and left e. */
  ghost predicate CutShort(lay: Layout, d: Disk, e: Disk)
    requires DiskOk(lay, d)
  {
    exists n :: 0 <= n <= |Header(d[lay.start])| && e == Installed(lay, d, n)
  }

  /** disks[0] is what a crash left; each later one is what an interrupted recovery of the previous left. */
  ghost predicate Interrupted(lay: Layout, disks: seq<Disk>)
  {
    && |disks| > 0 && (forall k :: 0 <= k < |disks| ==> DiskOk(lay, disks[k]))
    && forall k :: 0 < k < |disks| ==> CutShortAt(lay, disks, k)
  }

  ghost predicate CutShortAt(lay: Layout, disks: seq<Disk>, k: nat)
    requires 0 < k < |disks| && DiskOk(lay, disks[k - 1])
  {
    CutShort(lay, disks[k - 1], disks[k])
  }

  lemma {:induction false} InterruptedSame(lay: Layout, disks: seq<Disk>, k: nat, b: nat)
    requires Interrupted(lay, disks) && k < |disks| && lay.Home(b)
    ensures Logical(lay, disks[k], b) == Logical(lay, disks[0], b)
  {
    hide Logical, Installed, Loggable;
    if k > 0 {
      InterruptedSame(lay, disks, k - 1, b);
      assert CutShortAt(lay, disks, k);
      var n :| 0 <= n <= |Header(disks[k - 1][lay.start])| && disks[k] == Installed(lay, disks[k - 1], n);
      InstalledIsSilent(lay, disks[k - 1], n);
    }
  }

  /** However often recovery is interrupted, completing it gives what the crashed disk meant. */
  lemma RecoveryIsIdempotent(lay: Layout, disks: seq<Disk>, b: nat)
    requires Interrupted(lay, disks) && lay.Home(b)
    ensures Recovered(lay, disks[|disks| - 1])[b] == Logical(lay, disks[0], b)
  {
    hide Logical, Recovered;
    RecoveredIsLogical(lay, disks[|disks| - 1], b);
    InterruptedSame(lay, disks, |disks| - 1, b);
  }

  // ---- The disk after each block write -----------------------------------------------------------------------------------

  /** The disks that write_log leaves one after the other: the pinned blocks go into the log area in order. */
  ghost function LogCopies(lay: Layout, d: Disk, lh: seq<nat>, pinned: map<nat, Block>, k: nat): (r: seq<Disk>)
    requires lay.start + k < |d| && k <= |lh| && forall i :: 0 <= i < k ==> lh[i] in pinned
    ensures |r| == k && forall i :: 0 <= i < k ==> |r[i]| == |d|
  {
    if k == 0 then []
    else var r := LogCopies(lay, d, lh, pinned, k - 1); r + [Last(d, r)[lay.start + k := pinned[lh[k - 1]]]]
  }

  ghost function Last(d: Disk, r: seq<Disk>): Disk { if r == [] then d else r[|r| - 1] }

  lemma CopiesNone(lay: Layout, d: Disk, lh: seq<nat>, pinned: map<nat, Block>)
    requires lay.start < |d|
    ensures LogCopies(lay, d, lh, pinned, 0) == []
  {
  }

  lemma NextCopy(lay: Layout, d: Disk, lh: seq<nat>, pinned: map<nat, Block>, k: nat)
    requires lay.start + k + 1 < |d| && k < |lh| && forall i :: 0 <= i <= k ==> lh[i] in pinned
    ensures var r := LogCopies(lay, d, lh, pinned, k);
            |Last(d, r)| == |d| && LogCopies(lay, d, lh, pinned, k + 1) == r + [Last(d, r)[lay.start + k + 1 := pinned[lh[k]]]]
  {
  }

  /** After k log copies: k log blocks hold pinned blocks, and the disk means what it meant. */
  lemma {:induction false} LogCopied(lay: Layout, d: Disk, lh: seq<nat>, pinned: map<nat, Block>, k: nat)
    requires DiskOk(lay, d) && d[lay.start][0] == 0 && Loggable(lay, lh) && k <= |lh|
             && forall i :: 0 <= i < |lh| ==> lh[i] in pinned
    ensures var e := Last(d, LogCopies(lay, d, lh, pinned, k));
            && |e| == |d| && DiskOk(lay, e) && Same(lay, e, d) && e[lay.start] == d[lay.start]
            && (forall i :: 0 <= i < k ==> e[lay.start + 1 + i] == pinned[lh[i]])
            && forall b: nat :: lay.Home(b) ==> e[b] == d[b]
  {
    hide Logical, Header, LogCopies, Same;
    if k == 0 {
      CopiesNone(lay, d, lh, pinned);
      SameSelf(lay, d);
    } else {
      NextCopy(lay, d, lh, pinned, k - 1);
      LogCopied(lay, d, lh, pinned, k - 1);
      LogAppendIsSilent(lay, Last(d, LogCopies(lay, d, lh, pinned, k - 1)), k - 1, pinned[lh[k - 1]]);
      SameTwice(lay, Last(d, LogCopies(lay, d, lh, pinned, k)), Last(d, LogCopies(lay, d, lh, pinned, k - 1)), d);
    }
  }

  lemma SameSelf(lay: Layout, d: Disk)
    requires DiskOk(lay, d)
    ensures Same(lay, d, d)
  {
  }

  lemma SameTwice(lay: Layout, a: Disk, b: Disk, c: Disk)
    requires DiskOk(lay, a) && DiskOk(lay, b) && DiskOk(lay, c) && Same(lay, a, b) && Same(lay, b, c)
    ensures Same(lay, a, c)
  {
    hide Logical;
  }

  lemma {:induction false} LogCopiesSilent(lay: Layout, d: Disk, lh: seq<nat>, pinned: map<nat, Block>, k: nat, i: nat)
    requires DiskOk(lay, d) && d[lay.start][0] == 0 && Loggable(lay, lh) && i < k <= |lh|
             && forall i :: 0 <= i < |lh| ==> lh[i] in pinned
    ensures var r := LogCopies(lay, d, lh, pinned, k); DiskOk(lay, r[i]) && Same(lay, r[i], d)
  {
    hide Logical, Header;
    if i == k - 1 {
      LogCopied(lay, d, lh, pinned, k);
    } else {
      LogCopiesSilent(lay, d, lh, pinned, k - 1, i);
    }
  }

  /** The disks that install_trans leaves one after the other. */
  ghost function HomeCopies(lay: Layout, d: Disk, k: nat): (r: seq<Disk>)
    requires DiskOk(lay, d) && k <= |Header(d[lay.start])|
    ensures |r| == k
  {
    if k == 0 then [] else HomeCopies(lay, d, k - 1) + [Installed(lay, d, k)]
  }

  /** All disks of one commit: log copies, header, home copies, empty header. */
  ghost function CommitDisks(lay: Layout, d: Disk, lh: seq<nat>, pinned: map<nat, Block>): seq<Disk>
    requires lay.Valid() && |d| == lay.blocks && Loggable(lay, lh) && forall i :: 0 <= i < |lh| ==> lh[i] in pinned
  {
    if lh == [] then []
    else
      var r := LogCopies(lay, d, lh, pinned, |lh|);
      var e := Last(d, r)[lay.start := WithHeader(Last(d, r)[lay.start], lh)];
      HeaderNames(lay, Last(d, r), lh);
      r + [e] + HomeCopies(lay, e, |lh|) + [Recovered(lay, e)]
  }

  lemma HeaderNames(lay: Layout, d: Disk, lh: seq<nat>)
    requires lay.Valid() && |d| == lay.blocks && Loggable(lay, lh)
    ensures var e := d[lay.start := WithHeader(d[lay.start], lh)]; DiskOk(lay, e) && Header(e[lay.start]) == lh
  {
    HeaderRoundTrip(d[lay.start], lh);
  }

  /** From entry `from` to entry `to - 1` every disk means what `d` means. */
  ghost predicate Silent(lay: Layout, history: seq<Disk>, from: nat, to: nat, d: Disk)
    requires DiskOk(lay, d)
  {
    from <= to <= |history| && forall k :: from <= k < to ==> DiskOk(lay, history[k]) && Same(lay, history[k], d)
  }

  lemma SilentStill(lay: Layout, h: seq<Disk>, h': seq<Disk>, from: nat, to: nat, d: Disk)
    requires DiskOk(lay, d) && Silent(lay, h, from, to, d) && h <= h'
    ensures Silent(lay, h', from, to, d)
  {
    hide Same, DiskOk;
  }

  /** The entries from `from` on fall into a first part that means `d` and a second part that means `e`. */
  ghost predicate AllOrNothing(lay: Layout, history: seq<Disk>, from: nat, d: Disk, e: Disk)
    requires DiskOk(lay, d) && DiskOk(lay, e)
  {
    exists cut: nat :: Silent(lay, history, from, cut, d) && Silent(lay, history, cut, |history|, e)
  }

  /** Silent writes, one commit point, silent writes: all or nothing. */
  lemma CommitHistory(lay: Layout, history: seq<Disk>, from: nat, cut: nat, d: Disk, committed: Disk, e: Disk)
    requires DiskOk(lay, d) && DiskOk(lay, committed) && DiskOk(lay, e) && Same(lay, e, committed)
    requires from <= cut < |history| - 1 && history[cut] == committed && history[|history| - 1] == e
    requires Silent(lay, history, from, cut, d) && Silent(lay, history, cut + 1, |history| - 1, committed)
    ensures AllOrNothing(lay, history, from, d, e)
  {
    hide DiskOk, Logical;
    forall k | cut <= k < |history| ensures DiskOk(lay, history[k]) && Same(lay, history[k], e) {
    }
    assert Silent(lay, history, cut, |history|, e);
  }
}
