/** The code of src/log.c, one method per C function. The disk changes one block
    at a time; `history` records the disk after every such write, so that what a
    crash may find is exactly its entries. */
module Log {

  import opened Common
  import opened LogDisk
  import Machine = GroupCommit

  datatype Result = Ok | Panic

  class Log {
    const lay: Layout
    var disk: Disk
    var cache: map<nat, Block>   // blocks pinned by log_write: modified and not yet committed
    var lh: seq<nat>             // lh.block[0..lh.n)
    var outstanding: nat
    var committing: bool

    ghost var history: seq<Disk>

    /** The state in which initlog calls recover_from_log: nothing but the disk has survived. */
    constructor (lay: Layout, disk: Disk)
      ensures this.lay == lay && this.disk == disk && cache == map[] && lh == [] && outstanding == 0 && !committing
      ensures history == [disk]
    {
      this.lay, this.disk := lay, disk;
      cache, lh := map[], [];
      outstanding, committing := 0, false;
      history := [disk];
    }

    /** bwrite of a buffer for block b */
    method Bwrite(b: nat, data: Block)
      requires b < |disk|
      modifies this`disk, this`history
      ensures disk == old(disk)[b := data] && history == old(history) + [disk]
    {
      disk := disk[b := data];
      history := history + [disk];
    }

    /** install_trans: copies every logged block home. Each copy leaves a disk that means the same, and
        makes its block clean. */
    method InstallTrans()
      requires DiskOk(lay, disk) && lh == Header(disk[lay.start])
      modifies this`disk, this`history, this`cache
      ensures disk == Installed(lay, old(disk), |lh|) && DiskOk(lay, disk)
      ensures old(history) <= history && Silent(lay, history, |old(history)|, |history|, old(disk))
      ensures cache == old(cache) - (set b | b in lh)
      ensures history == old(history) + HomeCopies(lay, old(disk), |lh|)
    {
      hide Logical, Installed, Loggable, Header;
      ghost var before := disk;
      var tail := 0;
      InstalledZero(lay, disk);
      while tail < |lh|
        invariant 0 <= tail <= |lh| && disk == Installed(lay, before, tail)
        invariant old(history) <= history && Silent(lay, history, |old(history)|, |history|, before)
        invariant cache == old(cache) - (set b | b in lh[..tail])
        invariant history == old(history) + HomeCopies(lay, before, tail)
      {
        NextInstall(lay, before, tail);
        InstalledIsSilent(lay, before, tail + 1);
        var lbuf := disk[lay.start + tail + 1];
        Bwrite(lh[tail], lbuf);
        cache := cache - {lh[tail]};
        assert lh[..tail + 1] == lh[..tail] + [lh[tail]];
        tail := tail + 1;
      }
      assert lh[..tail] == lh;
      InstalledIsSilent(lay, before, |lh|);
    }

    /** read_head */
    method ReadHead()
      requires DiskOk(lay, disk)
      modifies this`lh
      ensures lh == Header(disk[lay.start])
    {
      var buf := disk[lay.start];
      lh := [];
      var n := buf[0];
      var i := 0;
      while i < n
        invariant 0 <= i <= n && lh == buf[1..1 + i]
      {
        lh := lh + [buf[1 + i]];
        i := i + 1;
      }
    }

    /** write_head */
    method WriteHead()
      requires |disk| == lay.blocks && lay.Valid() && |lh| <= LOGSIZE
      modifies this`disk, this`history
      ensures disk == old(disk)[lay.start := WithHeader(old(disk)[lay.start], lh)]
      ensures history == old(history) + [disk]
    {
      var old0 := disk[lay.start];
      var hb: Block := [|lh|] + old0[1..];
      var i := 0;
      while i < |lh|
        invariant 0 <= i <= |lh| && hb == [|lh|] + lh[..i] + old0[1 + i..]
      {
        hb := hb[1 + i := lh[i]];
        i := i + 1;
      }
      assert lh[..i] == lh;
      Bwrite(lay.start, hb);
    }

    /** recover_from_log: at home the disk becomes what it meant, and so it is at every crash on the way. */
    method RecoverFromLog()
      requires DiskOk(lay, disk)
      modifies this`disk, this`history, this`lh, this`cache
      ensures disk == Recovered(lay, old(disk)) && lh == []
      ensures DiskOk(lay, disk) && disk[lay.start][0] == 0
      ensures old(history) <= history && Silent(lay, history, |old(history)|, |history|, old(disk))
      ensures forall b: nat :: lay.Home(b) ==> disk[b] == Logical(lay, old(disk), b)
      ensures history == old(history) + HomeCopies(lay, old(disk), |Header(old(disk)[lay.start])|) + [disk]
    {
      hide Logical, Installed, Loggable, WithHeader;
      ghost var before := disk;
      ReadHead();
      InstallTrans();
      lh := [];
      WriteHead();
      RecoveredIsSilent(lay, before);
      forall b: nat | lay.Home(b) ensures disk[b] == Logical(lay, before, b) {
        RecoveredIsLogical(lay, before, b);
      }
    }

    /** write_log: copies the pinned blocks into the log, which nobody notices yet. */
    method WriteLog()
      requires DiskOk(lay, disk) && disk[lay.start][0] == 0 && Loggable(lay, lh)
      requires forall i :: 0 <= i < |lh| ==> lh[i] in cache
      modifies this`disk, this`history
      ensures DiskOk(lay, disk) && old(history) <= history && Silent(lay, history, |old(history)|, |history|, old(disk))
      ensures |disk| == |old(disk)| && disk[lay.start] == old(disk)[lay.start]
      ensures forall i :: 0 <= i < |lh| ==> disk[lay.start + 1 + i] == cache[lh[i]]
      ensures forall b: nat :: lay.Home(b) ==> disk[b] == old(disk)[b]
      ensures lay.start + |lh| < |old(disk)| && history == old(history) + LogCopies(lay, old(disk), lh, cache, |lh|)
      ensures disk == Last(old(disk), LogCopies(lay, old(disk), lh, cache, |lh|))
    {
      hide Logical, LogCopies, Same, Header;
      ghost var before := disk;
      var tail := 0;
      LogCopied(lay, before, lh, cache, 0);
      CopiesNone(lay, before, lh, cache);
      while tail < |lh|
        invariant 0 <= tail <= |lh| && |disk| == |before|
        invariant history == old(history) + LogCopies(lay, before, lh, cache, tail)
        invariant disk == Last(before, LogCopies(lay, before, lh, cache, tail))
      {
        var from := cache[lh[tail]];
        NextCopy(lay, before, lh, cache, tail);
        Bwrite(lay.start + tail + 1, from);
        tail := tail + 1;
      }
      LogCopied(lay, before, lh, cache, tail);
      forall i | 0 <= i < tail
        ensures var r := LogCopies(lay, before, lh, cache, tail); DiskOk(lay, r[i]) && Same(lay, r[i], before)
      {
        LogCopiesSilent(lay, before, lh, cache, tail, i);
      }
    }

    /** commit, the heart of it: the new blocks are at home, and a crash before the header is written finds the
        old state, a crash after it the new one, never a mixture. */
    method Commit()
      requires DiskOk(lay, disk) && disk[lay.start][0] == 0 && Loggable(lay, lh)
      requires forall i :: 0 <= i < |lh| ==> lh[i] in cache
      modifies this`disk, this`history, this`lh, this`cache
      ensures DiskOk(lay, disk) && disk[lay.start][0] == 0 && lh == [] && old(history) <= history
      ensures forall b: nat :: lay.Home(b) ==> disk[b] == if b in old(lh) then old(cache)[b] else old(disk)[b]
      ensures AllOrNothing(lay, history, |old(history)|, old(disk), disk)
      ensures cache == old(cache) - (set b | b in old(lh))
      ensures history == old(history) + CommitDisks(lay, old(disk), old(lh), old(cache))
    {
      hide Logical, Installed, WithHeader, Same, LogCopies, HomeCopies, Header, Loggable, CommitDisks, AllOrNothing, Silent,
           Recovered;
      ghost var before, cache0 := disk, cache;
      if |lh| == 0 {
        assert cache - (set b | b in old(lh)) == cache;
        NothingCommitted(lay, history, before, cache0);
        return;
      }
      WriteLog();
      ghost var cut, logged := |history|, disk;
      HeaderIsWritten(lay, disk, lh);
      ghost var committed := disk[lay.start := WithHeader(disk[lay.start], lh)];
      ghost var written := history;
      WriteHeadAndInstall();
      SilentStill(lay, written, history, |old(history)|, cut, before);
      CommitHistory(lay, history, |old(history)|, cut, before, committed, disk);
      CommitDisksAre(lay, before, old(lh), cache0);
      CommittedHome(lay, before, logged, old(lh), cache0);
    }

    /** The second half of commit: the header, the copies home, and the empty header. */
    method WriteHeadAndInstall()
      requires DiskOk(lay, disk) && Loggable(lay, lh)
      modifies this`disk, this`history, this`lh, this`cache
      ensures lh == [] && cache == old(cache) - (set b | b in old(lh))
      ensures var e := old(disk)[lay.start := WithHeader(old(disk)[lay.start], old(lh))];
              && DiskOk(lay, e) && Header(e[lay.start]) == old(lh) && disk == Recovered(lay, e)
              && DiskOk(lay, disk) && disk[lay.start][0] == 0 && Same(lay, disk, e)
              && history == old(history) + [e] + HomeCopies(lay, e, |old(lh)|) + [disk]
              && Silent(lay, history, |old(history)| + 1, |history| - 1, e)
    {
      hide Logical, Installed, WithHeader, Same, HomeCopies, Loggable;
      HeaderIsWritten(lay, disk, lh);
      WriteHead();
      ghost var committed := disk;
      InstallTrans();
      RecoveredIsSilent(lay, committed);
      lh := [];
      WriteHead();
    }

    /** What the log shares with a state of the machine of all interleavings. */
    ghost predicate Agrees(s: Machine.State)
      reads this
    {
      s.disk == disk && s.lh == lh && s.outstanding == outstanding && s.committing == committing
    }

    /** log_write: remembers the block and pins it; a block already in the log is absorbed. The panics are those of the two
        guards. For a call of the machine that has the block locked these are the machine's two steps, check and append. */
    method LogWrite(b: nat, data: Block, ghost s: Machine.State, ghost i: nat) returns (r: Result)
      requires lay.size > 0
      modifies this`lh, this`cache
      ensures r == Panic <==> old(|lh| >= LOGSIZE || |lh| >= lay.size - 1 || outstanding < 1)
      ensures r == Panic ==> lh == old(lh) && cache == old(cache)
      ensures r == Ok ==> cache == old(cache)[b := data] && lh == if b in old(lh) then old(lh) else old(lh) + [b]
      ensures r == Ok && lay.Home(b) && old(Loggable(lay, lh)) ==> Loggable(lay, lh)
      ensures old(Agrees(s)) && Machine.Books(s) && Logs(s, i, b, data) ==>
                && (r == Ok <==> Machine.CanStep(lay, s, Machine.LogCheck(i)))
                && (r == Ok ==> var t := Machine.Do(lay, s, Machine.LogCheck(i));
                                && Machine.CanStep(lay, t, Machine.LogAppend(i, b))
                                   && Agrees(Machine.Do(lay, t, Machine.LogAppend(i, b)))
                                && Machine.Do(lay, t, Machine.LogAppend(i, b)).cache[b].data == cache[b])
    {
      hide Machine.IdInv, Machine.Unspent;
      if |lh| >= LOGSIZE || |lh| >= lay.size - 1 {
        return Panic;
      }
      if outstanding < 1 {
        return Panic;
      }
      var k := 0;
      while k < |lh|
        invariant 0 <= k <= |lh| && b !in lh[..k]
      {
        if lh[k] == b {
          break;
        }
        assert lh[..k + 1] == lh[..k] + [lh[k]];
        k := k + 1;
      }
      assert k == |lh| ==> lh[..k] == lh;
      if k == |lh| {
        lh := lh + [b];
      } else {
        lh := lh[k := b];
      }
      cache := cache[b := data];
      return Ok;
    }

    /** One turn of begin_op's loop: the call is admitted exactly when the machine may take the step, and otherwise sleeps. */
    method BeginOp(ghost s: Machine.State, ghost id: nat) returns (admitted: bool)
      requires Agrees(s) && (!s.committing ==> s.phase == Machine.Running) && id !in s.begun
      modifies this`outstanding
      ensures admitted <==> !old(committing) && |old(lh)| + MAXOPBLOCKS * old(outstanding) <= LOGSIZE - MAXOPBLOCKS
      ensures admitted <==> Machine.CanStep(lay, s, Machine.Begin(id))
      ensures Agrees(if admitted then Machine.Do(lay, s, Machine.Begin(id)) else s)
    {
      if committing {
        return false;
      } else if |lh| + (outstanding + 1) * MAXOPBLOCKS > LOGSIZE {
        return false;
      }
      outstanding := outstanding + 1;
      return true;
    }

    /** end_op up to the release of the lock: the machine's step. The panic is met exactly if a commit is running, so never
        for a call of the machine; and commit is called exactly if the machine leaves its running phase. */
    method EndOp(ghost s: Machine.State, ghost i: nat) returns (doCommit: bool, r: Result)
      requires outstanding > 0
      modifies this`outstanding, this`committing
      ensures r == Panic <==> old(committing)
      ensures outstanding == old(outstanding) - 1 && (r == Ok ==> (doCommit <==> outstanding == 0) && committing == doCommit)
      ensures old(Agrees(s)) && Machine.Books(s) && Leaves(s, i) ==>
                && r == Ok && Machine.CanStep(lay, s, Machine.End(i)) && Agrees(Machine.Do(lay, s, Machine.End(i)))
                && (doCommit <==> Machine.Do(lay, s, Machine.End(i)).phase != Machine.Running)
    {
      hide Machine.IdInv, Machine.Unspent;
      doCommit := false;
      outstanding := outstanding - 1;
      if committing {
        return false, Panic;
      }
      if outstanding == 0 {
        doCommit := true;
        committing := true;
      }
      r := Ok;
    }
  }

  /** Call i is about to log block b, which it has locked and within its budget. */
  ghost predicate Logs(s: Machine.State, i: nat, b: nat, data: Block)
  {
    && i < |s.active| && !s.active[i].checked && (b in s.lh || s.active[i].spent < MAXOPBLOCKS)
    && b in s.cache && s.cache[b].holder == Some(s.active[i].id) && s.cache[b].data == data
  }

  /** Call i has released its buffers and is about to end. */
  ghost predicate Leaves(s: Machine.State, i: nat)
  {
    && i < |s.active| && !s.active[i].checked
    && forall b :: b in s.cache ==> s.cache[b].holder != Some(s.active[i].id)
  }

  /** After the header of `logged` names the blocks lh, and recovery or installation has run, home blocks are
      the pinned ones where there are any and the old ones elsewhere. */
  lemma CommittedHome(lay: Layout, before: Disk, logged: Disk, lh: seq<nat>, cache: map<nat, Block>)
    requires DiskOk(lay, logged) && Loggable(lay, lh) && |before| == |logged|
    requires forall i :: 0 <= i < |lh| ==> lh[i] in cache && logged[lay.start + 1 + i] == cache[lh[i]]
    requires forall b: nat :: lay.Home(b) ==> logged[b] == before[b]
    ensures var e := logged[lay.start := WithHeader(logged[lay.start], lh)];
            && DiskOk(lay, e)
            && forall b: nat :: lay.Home(b) ==> Recovered(lay, e)[b] == if b in lh then cache[b] else before[b]
  {
    hide WithHeader, Recovered, Logical;
    HeaderIsWritten(lay, logged, lh);
    var e := logged[lay.start := WithHeader(logged[lay.start], lh)];
    forall b: nat | lay.Home(b) ensures Recovered(lay, e)[b] == if b in lh then cache[b] else before[b] {
      RecoveredIsLogical(lay, e, b);
      HeaderCommits(lay, logged, lh, b);
    }
  }

  lemma NothingCommitted(lay: Layout, history: seq<Disk>, d: Disk, pinned: map<nat, Block>)
    requires DiskOk(lay, d)
    ensures Loggable(lay, []) && CommitDisks(lay, d, [], pinned) == [] && AllOrNothing(lay, history, |history|, d, d)
  {
    assert Silent(lay, history, |history|, |history|, d);
  }

  lemma CommitDisksAre(lay: Layout, d: Disk, lh: seq<nat>, pinned: map<nat, Block>)
    requires lay.Valid() && |d| == lay.blocks && Loggable(lay, lh) && lh != [] && forall i :: 0 <= i < |lh| ==> lh[i] in pinned
    ensures lay.start + |lh| < |d| && var r := LogCopies(lay, d, lh, pinned, |lh|);
            var e := Last(d, r)[lay.start := WithHeader(Last(d, r)[lay.start], lh)];
            && DiskOk(lay, e) && Header(e[lay.start]) == lh
            && CommitDisks(lay, d, lh, pinned) == r + [e] + HomeCopies(lay, e, |lh|) + [Recovered(lay, e)]
  {
    hide LogCopies, HomeCopies, Recovered, WithHeader;
    HeaderNames(lay, Last(d, LogCopies(lay, d, lh, pinned, |lh|)), lh);
  }

  lemma InstalledZero(lay: Layout, d: Disk)
    requires DiskOk(lay, d)
    ensures Installed(lay, d, 0) == d
  {
  }
}
