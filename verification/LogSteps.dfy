/** The code of commit and recovery against the interleaving machine: the machine's commit steps write, block for block, the
    disks that the code writes. */
module LogSteps {
  import opened Common
  import opened LogDisk
  import opened GroupCommit

  /** States that follow each other by the next disk write of commit or recovery. */
  ghost predicate Trace(lay: Layout, states: seq<State>)
  {
    |states| > 0 && forall k :: 0 <= k < |states| - 1 ==> Next(lay, states, k)
  }

  ghost predicate Next(lay: Layout, states: seq<State>, k: nat)
    requires k + 1 < |states|
  {
    CanStep(lay, states[k], CommitStep) && states[k + 1] == Do(lay, states[k], CommitStep)
  }

  ghost function End(states: seq<State>): State
    requires |states| > 0
  {
    states[|states| - 1]
  }

  lemma TraceMore(lay: Layout, states: seq<State>)
    requires Trace(lay, states) && CanStep(lay, End(states), CommitStep)
    ensures Trace(lay, states + [Do(lay, End(states), CommitStep)])
  {
    hide CanStep, Do;
    var t := states + [Do(lay, End(states), CommitStep)];
    forall k | 0 <= k < |t| - 1 ensures Next(lay, t, k) {
      if k < |states| - 1 {
        assert Next(lay, states, k);
      }
    }
  }

  /** The machine's disk is d, nobody holds a buffer, the pinned blocks are in the cache, only logged blocks are dirty, and
      cached blocks of the log area are as on disk. There is a buffer more than the logged blocks may use. */
  ghost predicate Mirror(lay: Layout, s: State, d: Disk, lh: seq<nat>, pinned: map<nat, Block>)
  {
    && lay.Valid() && s.disk == d && |d| == lay.blocks && s.lh == lh && Loggable(lay, lh) && |lh| < lay.nbuf
    && (forall b :: b in s.cache ==> s.cache[b].holder == None && b < lay.blocks && (s.cache[b].dirty ==> b in lh))
    && (forall b :: b in pinned ==> lay.Home(b) && b in s.cache && s.cache[b].data == pinned[b])
    && forall b :: b in s.cache && !lay.Home(b) ==> s.cache[b].data == d[b]
  }

  lemma MirrorRoom(lay: Layout, s: State, d: Disk, lh: seq<nat>, pinned: map<nat, Block>)
    requires Mirror(lay, s, d, lh, pinned)
    ensures lay.start + |lh| < |d| && s.disk == d
  {
  }

  /** So bget does not panic. */
  lemma MirrorBuffers(lay: Layout, s: State, d: Disk, lh: seq<nat>, pinned: map<nat, Block>, tail: nat)
    requires Mirror(lay, s, d, lh, pinned)
    ensures Gets(lay, s, {}, lay.start) && Copies(lay, s, tail)
  {
    assert Busy(s) + {} == Busy(s);
    NamesCount(lh);
    assert Busy(s) <= Names(lh);
    SubsetSize(Busy(s), Names(lh));
    if tail < |lh| && lh[tail] !in Busy(s) {
      SubsetSize(Busy(s), Names(lh) - {lh[tail]});
    }
  }

  /** What a step needs of it: buffers are free, and bread finds the pinned blocks and the blocks of the log. */
  lemma MirrorReads(lay: Layout, s: State, d: Disk, lh: seq<nat>, pinned: map<nat, Block>, b: nat)
    requires Mirror(lay, s, d, lh, pinned)
    ensures s.disk == d && s.lh == lh && |d| == lay.blocks && |lh| <= LOGSIZE && lay.start + |lh| < lay.start + lay.size <= |d|
    ensures Free(s, b) && (b in pinned ==> b < |d| && lay.Home(b) && Read(s, b) == pinned[b])
    ensures lay.start <= b < lay.start + lay.size ==> b < |d| && Read(s, b) == d[b]
    ensures b in lh ==> b < |d|
  {
  }

  lemma MirrorWritten(lay: Layout, s: State, d: Disk, lh: seq<nat>, pinned: map<nat, Block>, b: nat, data: Block, t: State)
    requires Mirror(lay, s, d, lh, pinned) && b < |d| && b !in pinned
    requires t.disk == s.disk[b := data] && t.cache == s.cache[b := Buf(data, false, None, false)] && t.lh == s.lh
    ensures Mirror(lay, t, d[b := data], lh, pinned)
  {
    hide Loggable;
  }

  lemma LogStep(lay: Layout, s: State, d: Disk, lh: seq<nat>, pinned: map<nat, Block>, tail: nat)
    requires Mirror(lay, s, d, lh, pinned) && tail < |lh| && s.phase == WritingLog(tail) && lh[tail] in pinned
    ensures lay.start + 1 + tail < |d| && CanStep(lay, s, CommitStep) && var t := Do(lay, s, CommitStep);
            && Mirror(lay, t, d[lay.start + 1 + tail := pinned[lh[tail]]], lh, pinned)
            && t.phase == PhaseAfterLog(lh, tail + 1) && t.committing == s.committing
  {
    hide Gets, Copies, Busy, Mirror, Free, Read;
    MirrorBuffers(lay, s, d, lh, pinned, tail);
    MirrorReads(lay, s, d, lh, pinned, lh[tail]);
    MirrorReads(lay, s, d, lh, pinned, lay.start + 1 + tail);
    MirrorWritten(lay, s, d, lh, pinned, lay.start + 1 + tail, pinned[lh[tail]], Do(lay, s, CommitStep));
  }

  lemma HeadStep(lay: Layout, s: State, d: Disk, lh: seq<nat>, pinned: map<nat, Block>)
    requires Mirror(lay, s, d, lh, pinned) && s.phase == WritingHead
    ensures CanStep(lay, s, CommitStep) && var t := Do(lay, s, CommitStep);
            && Mirror(lay, t, d[lay.start := WithHeader(d[lay.start], lh)], lh, pinned)
            && t.phase == PhaseAfterInstall(lh, 0) && t.committing == s.committing
  {
    hide Gets, Copies, Busy, Mirror, Free, Read, WithHeader;
    MirrorBuffers(lay, s, d, lh, pinned, 0);
    MirrorReads(lay, s, d, lh, pinned, lay.start);
    MirrorWritten(lay, s, d, lh, pinned, lay.start, WithHeader(d[lay.start], lh), Do(lay, s, CommitStep));
  }

  lemma HomeStep(lay: Layout, s: State, d: Disk, lh: seq<nat>, tail: nat)
    requires Mirror(lay, s, d, lh, map[]) && tail < |lh| && s.phase == Installing(tail)
    ensures lh[tail] < |d| && lay.start + tail + 1 < |d| && CanStep(lay, s, CommitStep) && var t := Do(lay, s, CommitStep);
            && Mirror(lay, t, d[lh[tail] := d[lay.start + tail + 1]], lh, map[])
            && t.phase == PhaseAfterInstall(lh, tail + 1) && t.committing == s.committing
  {
    hide Gets, Copies, Busy, Mirror, Free, Read;
    MirrorBuffers(lay, s, d, lh, map[], tail);
    MirrorReads(lay, s, d, lh, map[], lh[tail]);
    MirrorReads(lay, s, d, lh, map[], lay.start + 1 + tail);
    MirrorWritten(lay, s, d, lh, map[], lh[tail], d[lay.start + 1 + tail], Do(lay, s, CommitStep));
  }

  lemma ClearStep(lay: Layout, s: State, d: Disk, lh: seq<nat>)
    requires Mirror(lay, s, d, lh, map[]) && s.phase == Clearing
    ensures CanStep(lay, s, CommitStep) && var t := Do(lay, s, CommitStep);
            && t.disk == d[lay.start := WithHeader(d[lay.start], [])] && t.lh == []
            && t.phase == if s.committing then Finishing else Running
  {
    hide Gets, Copies, Busy, Mirror, Free, Read, WithHeader;
    MirrorBuffers(lay, s, d, lh, map[], 0);
    MirrorReads(lay, s, d, lh, map[], lay.start);
  }

  ghost predicate Disks(states: seq<State>, from: nat, disks: seq<Disk>)
  {
    |states| == from + |disks| + 1 && forall k :: 0 <= k < |disks| ==> states[from + 1 + k].disk == disks[k]
  }

  lemma TraceOne(lay: Layout, s: State)
    ensures Trace(lay, [s]) && Disks([s], 0, [])
  {
  }

  lemma DisksMore(states: seq<State>, from: nat, disks: seq<Disk>, t: State)
    requires Disks(states, from, disks)
    ensures Disks(states + [t], from, disks + [t.disk])
  {
  }

  ghost predicate AllPinned(lh: seq<nat>, pinned: map<nat, Block>) { forall i :: 0 <= i < |lh| ==> lh[i] in pinned }

  /** The trace of the first k log copies. */
  ghost predicate Copying(lay: Layout, states: seq<State>, s: State, d: Disk, lh: seq<nat>, pinned: map<nat, Block>, k: nat)
  {
    && |states| > 0 && Trace(lay, states) && states[0] == s && k <= |lh| && AllPinned(lh, pinned) && lay.start + |lh| < |d|
    && var r := LogCopies(lay, d, lh, pinned, k);
    && Disks(states, 0, r) && Mirror(lay, End(states), Last(d, r), lh, pinned)
    && End(states).phase == PhaseAfterLog(lh, k) && End(states).committing == s.committing
  }

  lemma CopyingNext(lay: Layout, states: seq<State>, s: State, d: Disk, lh: seq<nat>, pinned: map<nat, Block>, k: nat)
    requires Copying(lay, states, s, d, lh, pinned, k) && k < |lh|
    ensures CanStep(lay, End(states), CommitStep)
    ensures Copying(lay, states + [Do(lay, End(states), CommitStep)], s, d, lh, pinned, k + 1)
  {
    hide CanStep, Do, Mirror, LogCopies, Disks, Trace;
    var r := LogCopies(lay, d, lh, pinned, k);
    LogStep(lay, End(states), Last(d, r), lh, pinned, k);
    TraceMore(lay, states);
    NextCopy(lay, d, lh, pinned, k);
    var t := Do(lay, End(states), CommitStep);
    MirrorRoom(lay, t, Last(d, r)[lay.start + 1 + k := pinned[lh[k]]], lh, pinned);
    DisksMore(states, 0, r, t);
    assert End(states + [t]) == t;
  }

  lemma {:induction false} LogTrace(lay: Layout, s: State, d: Disk, lh: seq<nat>, pinned: map<nat, Block>, k: nat)
    returns (states: seq<State>)
    requires Mirror(lay, s, d, lh, pinned) && s.phase == PhaseAfterLog(lh, 0) && k <= |lh| && AllPinned(lh, pinned)
    ensures Copying(lay, states, s, d, lh, pinned, k)
  {
    hide CanStep, Do, Mirror, LogCopies, Disks, Trace;
    if k == 0 {
      states := [s];
      MirrorRoom(lay, s, d, lh, pinned);
      CopiesNone(lay, d, lh, pinned);
      TraceOne(lay, s);
    } else {
      states := LogTrace(lay, s, d, lh, pinned, k - 1);
      CopyingNext(lay, states, s, d, lh, pinned, k - 1);
      states := states + [Do(lay, End(states), CommitStep)];
    }
  }

  lemma Unpinned(lay: Layout, s: State, d: Disk, lh: seq<nat>, pinned: map<nat, Block>)
    requires Mirror(lay, s, d, lh, pinned)
    ensures Mirror(lay, s, d, lh, map[])
  {
  }

  lemma {:induction false} HomeTrace(lay: Layout, states0: seq<State>, d: Disk, k: nat) returns (states: seq<State>)
    requires Trace(lay, states0) && DiskOk(lay, d) && k <= |Header(d[lay.start])|
    requires Mirror(lay, End(states0), d, Header(d[lay.start]), map[])
             && End(states0).phase == PhaseAfterInstall(Header(d[lay.start]), 0)
    ensures Trace(lay, states) && states0 <= states && Disks(states, |states0| - 1, HomeCopies(lay, d, k))
    ensures Mirror(lay, End(states), Installed(lay, d, k), Header(d[lay.start]), map[])
    ensures End(states).phase == PhaseAfterInstall(Header(d[lay.start]), k) && End(states).committing == End(states0).committing
  {
    hide CanStep, Do, Header, Installed, Loggable;
    if k == 0 {
      states := states0;
      InstalledNone(lay, d);
    } else {
      states := HomeTrace(lay, states0, d, k - 1);
      HomeStep(lay, End(states), Installed(lay, d, k - 1), Header(d[lay.start]), k - 1);
      NextInstall(lay, d, k - 1);
      TraceMore(lay, states);
      states := states + [Do(lay, End(states), CommitStep)];
    }
  }

  lemma InstalledNone(lay: Layout, d: Disk)
    requires DiskOk(lay, d)
    ensures Installed(lay, d, 0) == d
  {
  }

  /** The machine's commit, from the release of the lock in end_op to log.committing = 0, writes exactly the disks that commit
      writes. */
  lemma CommitRefines(lay: Layout, s: State, pinned: map<nat, Block>) returns (states: seq<State>)
    requires Mirror(lay, s, s.disk, s.lh, pinned) && s.lh != [] && s.phase == WritingLog(0) && AllPinned(s.lh, pinned)
    ensures Trace(lay, states) && states[0] == s && Disks(states, 0, CommitDisks(lay, s.disk, s.lh, pinned))
    ensures End(states).lh == [] && End(states).phase == if s.committing then Finishing else Running
  {
    hide CanStep, Do, WithHeader, LogCopies, HomeCopies, Installed;
    var d, lh := s.disk, s.lh;
    states := LogTrace(lay, s, d, lh, pinned, |lh|);
    var r := LogCopies(lay, d, lh, pinned, |lh|);
    var e := Last(d, r)[lay.start := WithHeader(Last(d, r)[lay.start], lh)];
    HeaderNames(lay, Last(d, r), lh);
    HeadStep(lay, End(states), Last(d, r), lh, pinned);
    TraceMore(lay, states);
    states := states + [Do(lay, End(states), CommitStep)];
    Unpinned(lay, End(states), e, lh, pinned);
    var states' := HomeTrace(lay, states, e, |lh|);
    ClearStep(lay, End(states'), Installed(lay, e, |lh|), lh);
    TraceMore(lay, states');
    hide Mirror, DiskOk;
    CommitParts(lay, states, states', r, e, HomeCopies(lay, e, |lh|), Recovered(lay, e));
    states := states' + [Do(lay, End(states'), CommitStep)];
  }

  lemma CommitParts(lay: Layout, a: seq<State>, b: seq<State>, r: seq<Disk>, e: Disk, h: seq<Disk>, last: Disk)
    requires |a| == |r| + 2 && |b| > 0 && a <= b && Disks(b, |a| - 1, h)
             && (forall k :: 0 <= k < |r| ==> a[k + 1].disk == r[k]) && End(a).disk == e
    ensures forall t: State :: t.disk == last ==> Disks(b + [t], 0, r + [e] + h + [last])
  {
    forall t: State | t.disk == last ensures Disks(b + [t], 0, r + [e] + h + [last]) {
      var all, st := r + [e] + h + [last], b + [t];
      forall k | 0 <= k < |all| ensures st[0 + 1 + k].disk == all[k] {
        if k < |r| {
          assert b[k + 1] == a[k + 1];
        } else if k == |r| {
          assert b[k + 1] == End(a);
        } else if k < |all| - 1 {
          assert b[|a| - 1 + 1 + (k - |r| - 1)].disk == h[k - |r| - 1];
        }
      }
    }
  }

  /** So does the machine's recovery: its first step reads the header, and the others write exactly the disks that
      recover_from_log writes. */
  lemma RecoveryRefines(lay: Layout, s: State) returns (states: seq<State>)
    requires DiskOk(lay, s.disk) && s.phase == Rebooted && s.cache == map[] && s.lh == [] && !s.committing
    requires |Header(s.disk[lay.start])| < lay.nbuf
    ensures Trace(lay, states) && states[0] == s && |states| > 1 && states[1].disk == s.disk
    ensures Disks(states, 1, HomeCopies(lay, s.disk, |Header(s.disk[lay.start])|) + [Recovered(lay, s.disk)])
    ensures End(states).disk == Recovered(lay, s.disk) && End(states).lh == [] && End(states).phase == Running
  {
    var lh := Header(s.disk[lay.start]);
    assert Busy(s) + {} == {};
    assert CanStep(lay, s, CommitStep);
    var t := Do(lay, s, CommitStep);
    assert Mirror(lay, t, s.disk, lh, map[]);
    hide Header, DiskOk, Mirror, Installed, HomeCopies, Disks;
    states := [s];
    TraceMore(lay, states);
    states := states + [t];
    hide CanStep, Do;
    states := HomeTrace(lay, states, s.disk, |lh|);
    ClearStep(lay, End(states), Installed(lay, s.disk, |lh|), lh);
    TraceMore(lay, states);
    DisksMore(states, 1, HomeCopies(lay, s.disk, |lh|), Do(lay, End(states), CommitStep));
    states := states + [Do(lay, End(states), CommitStep)];
  }

  ghost function Pinned(s: State): map<nat, Block> { map b | b in s.lh && b in s.cache :: s.cache[b].data }

  /** Every state of a run that is about to commit, once readers have let go of their buffers, is one that commit starts from,
      if there is a buffer left for the log block. */
  lemma ReachableMirrors(lay: Layout, base: Disk, s: State)
    requires Inv(lay, base, s) && s.phase == WritingLog(0) && |s.lh| < lay.nbuf
    requires forall b :: b in s.cache ==> s.cache[b].holder == None
    ensures Mirror(lay, s, s.disk, s.lh, Pinned(s)) && AllPinned(s.lh, Pinned(s)) && s.lh != []
  {
    hide Logical, Durable, Target, Header, Books;
    forall b | b in s.cache
      ensures b < lay.blocks && (!lay.Home(b) ==> s.cache[b].data == s.disk[b]) && (s.cache[b].dirty ==> b in s.lh)
    {
      assert BufOk(lay, base, s, b);
    }
  }
}
