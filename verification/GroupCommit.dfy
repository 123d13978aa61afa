/** Every interleaving of file-system calls with the log and the buffer cache
    (src/log.c, src/bio.c): calls begin, lock and edit cached blocks, hand them to
    log_write and end; the last one to end commits, one disk write at a time;
    readers come and go; clean buffers are recycled, and bget panics when there
    are none; and the machine may crash between any two steps, also while it
    recovers. */
module GroupCommit {

  import opened Common
  import opened LogDisk

  /** A buffer: who has it locked, and whether the holder has changed it since its last log_write. */
  datatype Buf = Buf(data: Block, dirty: bool, holder: Option<nat>, edited: bool)

  /** A file-system call between begin_op and end_op: how many log slots it has used, and whether it is inside log_write,
      past the guard and before the critical section. */
  datatype Call = Call(id: nat, spent: nat, checked: bool)

  /** A log_write: call, block, and the data the block had then. */
  datatype Write = Write(call: nat, b: nat, data: Block)

  /** What one commit makes durable: the calls it covers and their writes in order. */
  datatype Group = Group(calls: set<nat>, writes: seq<Write>)

  datatype Phase =
    | Running
    | WritingLog(tail: nat)    // commit: write_log
    | WritingHead              // commit: the first write_head
    | Installing(tail: nat)    // commit or recovery: install_trans
    | Clearing                 // commit or recovery: the second write_head
    | Finishing                // end_op: log.committing = 0
    | Rebooted                 // recovery: read_head

  datatype State = State(
    disk: Disk, cache: map<nat, Buf>, lh: seq<nat>, outstanding: int, committing: bool, phase: Phase,
    active: seq<Call>, begun: set<nat>, current: Group, groups: seq<Group>, lost: set<nat>)

  // ---- Steps -----------------------------------------------------------------------------------------

  datatype Label =
    | Begin(id: nat)                        // begin_op admits a call
    | Bread(who: nat, b: nat)               // bread by a call or by a reader outside any call
    | Edit(i: nat, b: nat, data: Block)     // active call i changes a block it has locked
    | LogCheck(i: nat)                      // log_write passes its guard, which it tests without the lock
    | LogAppend(i: nat, b: nat)             // log_write's critical section
    | Brelse(who: nat, b: nat)              // brelse
    | End(i: nat)                           // end_op, up to the release of log.lock
    | CommitStep                            // the next disk write of commit or recovery, or its end
    | Recycle(b: nat)                       // bget takes an unused clean buffer for another block
    | Crash

  predicate Free(s: State, b: nat) { b in s.cache ==> s.cache[b].holder == None }

  /** The data bread finds for block b. */
  function Read(s: State, b: nat): Block
    requires b < |s.disk|
  {
    if b in s.cache then s.cache[b].data else s.disk[b]
  }

  /** bwrite: disk and buffer agree afterwards, and the buffer is clean. */
  function Written(s: State, b: nat, data: Block): State
    requires b < |s.disk|
  {
    s.(disk := s.disk[b := data], cache := s.cache[b := Buf(data, false, None, false)])
  }

  /** The guards of log_write under which it panics with "too big a transaction". */
  predicate TooBig(lay: Layout, lh: seq<nat>) { |lh| >= LOGSIZE || |lh| >= lay.size - 1 }

  /** The buffers that bget may not recycle: somebody holds them, or they are dirty. Any other buffer agrees with the disk and
      may be gone at any time. */
  ghost function Busy(s: State): set<nat> { set b | b in s.cache && (s.cache[b].holder.Some? || s.cache[b].dirty) }

  /** bget finds block b or a buffer for it; otherwise it panics. The blocks in `more` are held besides. */
  ghost predicate Gets(lay: Layout, s: State, more: set<nat>, b: nat)
  {
    b in Busy(s) + more || |Busy(s) + more| < lay.nbuf
  }

  /** bget does not panic in a step. */
  ghost predicate Buffers(lay: Layout, s: State, l: Label)
  {
    match l
    case Bread(_, b) => Gets(lay, s, {}, b)
    case CommitStep =>
      (match s.phase
       case WritingLog(tail) => Copies(lay, s, tail)
       case Installing(tail) => Copies(lay, s, tail)
       case WritingHead => Gets(lay, s, {}, lay.start)
       case Clearing => Gets(lay, s, {}, lay.start)
       case Rebooted => Gets(lay, s, {}, lay.start)
       case _ => true)
    case _ => true
  }

  /** Buffers for a block of the log and the home block that goes with it. */
  ghost predicate Copies(lay: Layout, s: State, tail: nat)
  {
    tail < |s.lh| ==> Gets(lay, s, {}, lay.start + 1 + tail) && Gets(lay, s, {lay.start + 1 + tail}, s.lh[tail])
  }

  ghost predicate CanStep(lay: Layout, s: State, l: Label) { Allowed(lay, s, l) && Buffers(lay, s, l) }

  /** A step is possible, if only bget finds its buffers. */
  ghost predicate Allowed(lay: Layout, s: State, l: Label)
  {
    match l
    case Begin(id) =>
      id !in s.begun && s.phase == Running && !s.committing && |s.lh| + (s.outstanding + 1) * MAXOPBLOCKS <= LOGSIZE
    case Bread(who, b) =>
      lay.Home(b) && b < |s.disk| && Free(s, b) && Up(s) && (InCall(s, who) || who !in s.begun) && Quiet(s, who)
    case Edit(i, b, _) =>
      i < |s.active| && !s.active[i].checked && b in s.cache && s.cache[b].holder == Some(s.active[i].id)
    case LogCheck(i) =>
      i < |s.active| && !s.active[i].checked && !TooBig(lay, s.lh)
    case LogAppend(i, b) =>
      && i < |s.active| && s.active[i].checked && b in s.cache && s.cache[b].holder == Some(s.active[i].id)
      && (b in s.lh || s.active[i].spent < MAXOPBLOCKS)
    case Brelse(who, b) =>
      b in s.cache && s.cache[b].holder == Some(who) && !s.cache[b].edited && Quiet(s, who)
    case End(i) =>
      && i < |s.active| && !s.active[i].checked && !s.committing
      && (forall b :: b in s.cache ==> s.cache[b].holder != Some(s.active[i].id))
    case CommitStep =>
      (match s.phase
       case Running => false
       case WritingLog(tail) =>
         && tail < |s.lh| && lay.start + 1 + tail < |s.disk| && s.lh[tail] < |s.disk|
         && Free(s, lay.start + 1 + tail) && Free(s, s.lh[tail])
       case WritingHead => lay.start < |s.disk| && Free(s, lay.start) && |s.lh| <= LOGSIZE
       case Installing(tail) =>
         && tail < |s.lh| && lay.start + 1 + tail < |s.disk| && s.lh[tail] < |s.disk|
         && Free(s, lay.start + 1 + tail) && Free(s, s.lh[tail])
       case Clearing => lay.start < |s.disk| && Free(s, lay.start)
       case Finishing => true
       case Rebooted => lay.start < |s.disk| && s.disk[lay.start][0] <= LOGSIZE)
    case Recycle(b) => b in s.cache && s.cache[b].holder == None && !s.cache[b].dirty
    case Crash => true
  }

  /** Not in the middle of recovery: processes run. */
  predicate Up(s: State) { s.committing || s.phase == Running }

  ghost predicate InCall(s: State, who: nat) { exists i :: 0 <= i < |s.active| && s.active[i].id == who }

  /** A call inside log_write does nothing else. */
  ghost predicate Quiet(s: State, who: nat) { forall i :: 0 <= i < |s.active| && s.active[i].id == who ==> !s.active[i].checked }

  const NoGroup: Group := Group({}, [])

  function PhaseAfterLog(lh: seq<nat>, tail: nat): Phase { if tail < |lh| then WritingLog(tail) else WritingHead }

  function PhaseAfterInstall(lh: seq<nat>, tail: nat): Phase { if tail < |lh| then Installing(tail) else Clearing }

  ghost function Commit(lay: Layout, s: State): State
    requires CanStep(lay, s, CommitStep)
  {
    match s.phase
    case Running => s
    case WritingLog(tail) =>
      Written(s, lay.start + 1 + tail, Read(s, s.lh[tail])).(phase := PhaseAfterLog(s.lh, tail + 1))
    case WritingHead =>
      Written(s, lay.start, WithHeader(Read(s, lay.start), s.lh))
        .(phase := PhaseAfterInstall(s.lh, 0), groups := s.groups + [s.current], current := NoGroup)
    case Installing(tail) =>
      Written(s, s.lh[tail], Read(s, lay.start + 1 + tail)).(phase := PhaseAfterInstall(s.lh, tail + 1))
    case Clearing =>
      Written(s, lay.start, WithHeader(Read(s, lay.start), [])).(lh := [], phase := if s.committing then Finishing else Running)
    case Finishing => s.(committing := false, phase := Running)
    case Rebooted =>
      var lh := Header(s.disk[lay.start]);
      s.(lh := lh, phase := PhaseAfterInstall(lh, 0))
  }

  ghost function Do(lay: Layout, s: State, l: Label): State
    requires CanStep(lay, s, l)
  {
    match l
    case Begin(id) =>
      s.(outstanding := s.outstanding + 1, active := s.active + [Call(id, 0, false)], begun := s.begun + {id},
         current := Group(s.current.calls + {id}, s.current.writes))
    case Bread(who, b) =>
      s.(cache := s.cache[b := if b in s.cache then s.cache[b].(holder := Some(who))
          else Buf(s.disk[b], false, Some(who), false)])
    case Edit(i, b, data) =>
      s.(cache := s.cache[b := s.cache[b].(data := data, edited := true)])
    case LogCheck(i) =>
      s.(active := s.active[i := s.active[i].(checked := true)])
    case LogAppend(i, b) =>
      var call := s.active[i];
      s.(lh := if b in s.lh then s.lh else s.lh + [b],
         active := s.active[i := Call(call.id, if b in s.lh then call.spent else call.spent + 1, false)],
         cache := s.cache[b := s.cache[b].(dirty := true, edited := false)],
         current := Group(s.current.calls, s.current.writes + [Write(call.id, b, s.cache[b].data)]))
    case Brelse(who, b) =>
      s.(cache := s.cache[b := s.cache[b].(holder := None)])
    case End(i) =>
      var t := s.(outstanding := s.outstanding - 1, active := s.active[..i] + s.active[i + 1..]);
      if t.outstanding != 0 then t
      else if s.lh == [] then t.(committing := true, phase := Finishing, groups := s.groups + [s.current], current := NoGroup)
      else t.(committing := true, phase := WritingLog(0))
    case CommitStep => Commit(lay, s)
    case Recycle(b) => s.(cache := s.cache - {b})
    case Crash =>
      State(s.disk, map[], [], 0, false, Rebooted, [], s.begun, NoGroup, s.groups, s.lost + s.current.calls)
  }

  // ---- What the disk should mean -----------------------------------------------------------------------

  function Apply(d: Disk, w: Write): (e: Disk)
    ensures |e| == |d|
  {
    if w.b < |d| then d[w.b := w.data] else d
  }

  function ApplyAll(d: Disk, writes: seq<Write>): (e: Disk)
    ensures |e| == |d|
  {
    if writes == [] then d else Apply(ApplyAll(d, writes[..|writes| - 1]), writes[|writes| - 1])
  }

  /** The disk after the calls of these groups, in order. */
  function Durable(base: Disk, groups: seq<Group>): (e: Disk)
    ensures |e| == |base|
  {
    if groups == [] then base
    else ApplyAll(Durable(base, groups[..|groups| - 1]), groups[|groups| - 1].writes)
  }

  /** The same with the writes of the group that is still open. */
  function Target(base: Disk, s: State): (e: Disk)
    ensures |e| == |base|
  {
    ApplyAll(Durable(base, s.groups), s.current.writes)
  }

  // ---- What every step keeps ---------------------------------------------------------------------------

  /** A crash now would recover exactly the committed groups. */
  ghost predicate DiskInv(lay: Layout, base: Disk, s: State)
  {
    && |base| == lay.blocks && DiskOk(lay, s.disk)
    && forall b: nat :: lay.Home(b) ==> Logical(lay, s.disk, b) == Durable(base, s.groups)[b]
  }

  /** Before the commit point: the log on disk is empty and only logged blocks differ from the durable state. */
  ghost predicate BeforeCommit(lay: Layout, base: Disk, s: State)
    requires DiskInv(lay, base, s)
  {
    && s.disk[lay.start][0] == 0
    && (forall b: nat :: lay.Home(b) && b !in s.lh ==> Target(base, s)[b] == Durable(base, s.groups)[b])
    && (forall i :: 0 <= i < |s.lh| ==> s.lh[i] in s.cache && s.cache[s.lh[i]].dirty)
  }

  ghost predicate PhaseInv(lay: Layout, base: Disk, s: State)
    requires DiskInv(lay, base, s)
  {
    && Loggable(lay, s.lh)
    && match s.phase
       case Running => BeforeCommit(lay, base, s) && !s.committing
       case WritingLog(tail) =>
         && BeforeCommit(lay, base, s) && s.committing && tail < |s.lh|
         && forall i :: 0 <= i < tail ==> s.disk[lay.start + 1 + i] == Target(base, s)[s.lh[i]]
       case WritingHead =>
         && BeforeCommit(lay, base, s) && s.committing
         && forall i :: 0 <= i < |s.lh| ==> s.disk[lay.start + 1 + i] == Target(base, s)[s.lh[i]]
       case Installing(tail) =>
         && Header(s.disk[lay.start]) == s.lh && s.current == NoGroup && tail < |s.lh|
         && (forall i :: 0 <= i < tail ==> s.disk[s.lh[i]] == s.disk[lay.start + 1 + i])
         && (s.committing ==> forall i :: tail <= i < |s.lh| ==> s.lh[i] in s.cache && s.cache[s.lh[i]].dirty)
       case Clearing =>
         && Header(s.disk[lay.start]) == s.lh && s.current == NoGroup
         && (forall i :: 0 <= i < |s.lh| ==> s.disk[s.lh[i]] == s.disk[lay.start + 1 + i])
       case Finishing => s.disk[lay.start][0] == 0 && s.committing && s.lh == [] && s.current == NoGroup
       case Rebooted => s.current == NoGroup && !s.committing && s.lh == []
  }

  /** A cached home block is the newest version, unless its holder is editing it; a dirty one is waiting to be
      installed; a cached log block is clean and equals the disk. */
  ghost predicate BufOk(lay: Layout, base: Disk, s: State, b: nat)
    requires b in s.cache && |base| == lay.blocks == |s.disk|
  {
    var buf := s.cache[b];
    && b < lay.blocks
    && (if lay.Home(b) then
          && (!buf.edited ==> buf.data == Target(base, s)[b])
          && (buf.edited ==> buf.holder.Some? && InCall(s, buf.holder.value))
          && (buf.dirty ==> b in Pending(s))
        else buf == Buf(s.disk[b], false, None, false))
  }

  /** The logged blocks that have not been written to their homes. */
  ghost function Pending(s: State): seq<nat>
  {
    match s.phase
    case Installing(tail) => if tail <= |s.lh| then s.lh[tail..] else []
    case Clearing => []
    case _ => s.lh
  }

  ghost predicate CacheInv(lay: Layout, base: Disk, s: State)
    requires |base| == lay.blocks == |s.disk|
  {
    forall b :: b in s.cache ==> BufOk(lay, base, s, b)
  }

  function Unspent(active: seq<Call>): int
  {
    if active == [] then 0 else MAXOPBLOCKS - active[0].spent + Unspent(active[1..])
  }

  /** Calls are active only while the log is open to them, and their reservations fit the log. */
  ghost predicate CallInv(s: State)
  {
    && s.outstanding == |s.active|
    && (s.active != [] ==> s.phase == Running && !s.committing)
    && (forall i :: 0 <= i < |s.active| ==> s.active[i].spent <= MAXOPBLOCKS)
    && |s.lh| + Unspent(s.active) <= LOGSIZE
  }

  ghost predicate GroupOk(s: State, g: Group)
  {
    g.calls <= s.begun && forall k :: 0 <= k < |g.writes| ==> g.writes[k].call in g.calls
  }

  /** A call is covered by the open group, by a committed one, or by none because a crash lost it. */
  ghost predicate Accounted(s: State, id: nat)
  {
    id in s.lost || id in s.current.calls || exists g :: 0 <= g < |s.groups| && id in s.groups[g].calls
  }

  /** Every call's writes fall in one group, or are lost together. */
  ghost predicate IdInv(s: State)
  {
    && (forall id :: id in s.begun ==> Accounted(s, id))
    && s.lost <= s.begun && s.lost !! s.current.calls
    && (forall g :: 0 <= g < |s.groups| ==> s.groups[g].calls !! s.lost)
    && (forall i :: 0 <= i < |s.active| ==> s.active[i].id in s.current.calls)
    && (forall i, j :: 0 <= i < j < |s.active| ==> s.active[i].id != s.active[j].id)
    && GroupOk(s, s.current)
    && (forall g :: 0 <= g < |s.groups| ==> GroupOk(s, s.groups[g]) && s.groups[g].calls !! s.current.calls)
    && (forall g, h :: 0 <= g < h < |s.groups| ==> s.groups[g].calls !! s.groups[h].calls)
  }

  /** What the disk, the phase of a commit and the cache keep while the list fits the log area. */
  ghost predicate DataInv(lay: Layout, base: Disk, s: State)
  {
    lay.Valid() && DiskInv(lay, base, s) && PhaseInv(lay, base, s) && CacheInv(lay, base, s)
  }

  /** What the bookkeeping keeps, in every log area. */
  ghost predicate Books(s: State) { CallInv(s) && IdInv(s) }

  ghost predicate Inv(lay: Layout, base: Disk, s: State) { DataInv(lay, base, s) && Books(s) }

  /** Log areas that hold whatever the calls may log: larger than LOGSIZE, or so small that log_write always panics. */
  predicate Roomy(lay: Layout) { lay.size > LOGSIZE || lay.size == 1 }

  /** In a log area of one block no call gets past the guard of log_write. */
  ghost predicate RoomyInv(lay: Layout, base: Disk, s: State)
  {
    Inv(lay, base, s) && Roomy(lay) && (lay.size == 1 ==> forall i :: 0 <= i < |s.active| ==> !s.active[i].checked)
  }

  /** The list fits the log area after the step. */
  ghost predicate StillFits(lay: Layout, s: State, l: Label)
    requires CanStep(lay, s, l)
  {
    l.LogAppend? ==> |Do(lay, s, l).lh| <= lay.size - 1
  }

  // ---- Steps of calls and readers ------------------------------------------------------------------------

  lemma {:induction false} UnspentBound(active: seq<Call>)
    ensures Unspent(active) <= MAXOPBLOCKS * |active|
  {
    if active != [] {
      UnspentBound(active[1..]);
    }
  }

  lemma {:induction false} UnspentAppend(active: seq<Call>, c: Call)
    ensures Unspent(active + [c]) == Unspent(active) + MAXOPBLOCKS - c.spent
  {
    if active == [] {
      assert active + [c] == [c];
      assert [c][1..] == [];
    } else {
      assert (active + [c])[1..] == active[1..] + [c];
      UnspentAppend(active[1..], c);
    }
  }

  lemma {:induction false} UnspentUpdate(active: seq<Call>, i: nat, c: Call)
    requires i < |active|
    ensures Unspent(active[i := c]) == Unspent(active) + active[i].spent - c.spent
  {
    if i == 0 {
      assert active[i := c][1..] == active[1..];
    } else {
      assert active[i := c][1..] == active[1..][i - 1 := c];
      UnspentUpdate(active[1..], i - 1, c);
    }
  }

  lemma {:induction false} UnspentRemove(active: seq<Call>, i: nat)
    requires i < |active|
    ensures Unspent(active[..i] + active[i + 1..]) == Unspent(active) - MAXOPBLOCKS + active[i].spent
  {
    if i == 0 {
      assert active[..i] + active[i + 1..] == active[1..];
    } else {
      assert (active[..i] + active[i + 1..])[1..] == active[1..][..i - 1] + active[1..][i..];
      assert active[1..][i..] == active[1..][i - 1 + 1..];
      UnspentRemove(active[1..], i - 1);
    }
  }

  lemma {:induction false} UnspentPositive(active: seq<Call>, i: nat)
    requires i < |active| && forall k :: 0 <= k < |active| ==> active[k].spent <= MAXOPBLOCKS
    ensures Unspent(active) >= MAXOPBLOCKS - active[i].spent
  {
    if i > 0 {
      UnspentPositive(active[1..], i - 1);
    } else if |active| > 1 {
      UnspentPositive(active[1..], 0);
    } else {
      assert active[1..] == [];
    }
  }

  // ---- The bookkeeping, in every log area --------------------------------------------------------------------

  lemma BeginBooks(lay: Layout, s: State, l: Label)
    requires Books(s) && l.Begin? && CanStep(lay, s, l)
    ensures Books(Do(lay, s, l))
  {
    UnspentBound(s.active);
    UnspentAppend(s.active, Call(l.id, 0, false));
    hide Unspent, Buffers;
  }

  lemma CheckBooks(lay: Layout, s: State, l: Label)
    requires Books(s) && l.LogCheck? && CanStep(lay, s, l)
    ensures Books(Do(lay, s, l))
  {
    hide Unspent, Buffers;
    UnspentUpdate(s.active, l.i, s.active[l.i].(checked := true));
  }

  lemma AppendCalls(lay: Layout, s: State, l: Label)
    requires CallInv(s) && l.LogAppend? && CanStep(lay, s, l)
    ensures CallInv(Do(lay, s, l))
  {
    hide Unspent, Buffers;
    UnspentUpdate(s.active, l.i, Do(lay, s, l).active[l.i]);
  }

  lemma AppendIds(lay: Layout, s: State, l: Label)
    requires IdInv(s) && l.LogAppend? && CanStep(lay, s, l)
    ensures IdInv(Do(lay, s, l))
  {
    hide Unspent, Buffers;
    var t := Do(lay, s, l);
    assert GroupOk(t, t.current);
    forall g | 0 <= g < |t.groups| ensures GroupOk(t, t.groups[g]) {
      assert GroupOk(s, s.groups[g]);
    }
    forall id | id in t.begun ensures Accounted(t, id) {
      assert Accounted(s, id);
    }
  }

  lemma EndCalls(lay: Layout, s: State, l: Label)
    requires CallInv(s) && l.End? && CanStep(lay, s, l)
    ensures CallInv(Do(lay, s, l))
  {
    hide Unspent, Buffers;
    UnspentRemove(s.active, l.i);
  }

  lemma CloseAccounted(s: State, t: State)
    requires t.groups == s.groups + [s.current] && t.lost == s.lost && t.begun == s.begun
    requires forall id :: id in s.begun ==> Accounted(s, id)
    ensures forall id :: id in t.begun ==> Accounted(t, id)
  {
    forall id | id in t.begun ensures Accounted(t, id) {
      assert Accounted(s, id);
      if g :| 0 <= g < |s.groups| && id in s.groups[g].calls {
        assert t.groups[g] == s.groups[g];
      } else if id in s.current.calls {
        assert t.groups[|s.groups|] == s.current;
      }
    }
  }

  /** Closing the open group when no call is left in it. */
  lemma CloseIds(s: State, t: State)
    requires IdInv(s) && t.active == [] && t.groups == s.groups + [s.current] && t.current == NoGroup
    requires t.lost == s.lost && t.begun == s.begun
    ensures IdInv(t)
  {
    CloseAccounted(s, t);
    forall g | 0 <= g < |t.groups| ensures GroupOk(t, t.groups[g]) {
      assert GroupOk(s, if g < |s.groups| then s.groups[g] else s.current);
    }
    hide Accounted, Buffers;
  }

  /** A call that leaves, with the group still open. */
  lemma LeaveIds(s: State, t: State, i: nat)
    requires IdInv(s) && i < |s.active| && t.active == s.active[..i] + s.active[i + 1..]
    requires t.groups == s.groups && t.current == s.current && t.lost == s.lost && t.begun == s.begun
    ensures IdInv(t)
  {
    hide Accounted, GroupOk, Buffers;
    assert forall k :: 0 <= k < |t.active| ==> t.active[k] == s.active[if k < i then k else k + 1];
    forall id | id in t.begun ensures Accounted(t, id) {
      SameAccount(s, t, id);
    }
    forall g | g == s.current || g in s.groups ensures GroupOk(t, g) {
      SameGroup(s, t, g);
    }
  }

  lemma SameAccount(s: State, t: State, id: nat)
    requires t.groups == s.groups && t.current == s.current && t.lost == s.lost && t.begun == s.begun && id in s.begun
    requires Accounted(s, id)
    ensures Accounted(t, id)
  {
  }

  lemma SameGroup(s: State, t: State, g: Group)
    requires t.begun == s.begun && GroupOk(s, g)
    ensures GroupOk(t, g)
  {
  }

  lemma EndBooks(lay: Layout, s: State, l: Label)
    requires Books(s) && l.End? && CanStep(lay, s, l)
    ensures Books(Do(lay, s, l))
  {
    hide Unspent, IdInv, Buffers;
    EndCalls(lay, s, l);
    var t := Do(lay, s, l);
    if t.groups != s.groups {
      CloseIds(s, t);
    } else {
      LeaveIds(s, t, l.i);
    }
  }

  /** Steps that touch only buffers and the disk leave the bookkeeping alone. */
  lemma BooksUnchanged(s: State, t: State)
    requires Books(s)
    requires t.outstanding == s.outstanding && t.active == s.active && t.phase == s.phase && t.committing == s.committing
    requires t.lh == s.lh && t.begun == s.begun && t.current == s.current && t.groups == s.groups && t.lost == s.lost
    ensures Books(t)
  {
  }

  /** The writes of commit and recovery, during which no call is active. */
  lemma CommitBooks(lay: Layout, s: State)
    requires Books(s) && CanStep(lay, s, CommitStep)
    ensures s.active == [] && Books(Commit(lay, s))
  {
    hide IdInv, Header, WithHeader, Buffers;
    var t := Commit(lay, s);
    if s.phase.WritingHead? {
      CloseIds(s, t);
    } else {
      IdleIds(s, t);
    }
  }

  lemma IdleIds(s: State, t: State)
    requires IdInv(s) && t.active == s.active && t.begun == s.begun && t.groups == s.groups && t.current == s.current
             && t.lost == s.lost
    ensures IdInv(t)
  {
  }

  lemma CrashBooks(s: State, t: State)
    requires Books(s) && t.outstanding == 0 && t.active == [] && t.lh == [] && t.begun == s.begun
    requires t.current == NoGroup && t.groups == s.groups && t.lost == s.lost + s.current.calls
    ensures Books(t)
  {
  }

  /** Every step keeps the bookkeeping. */
  lemma StepKeepsBooks(lay: Layout, s: State, l: Label)
    requires Books(s) && CanStep(lay, s, l)
    ensures Books(Do(lay, s, l))
  {
    hide Books, Commit, Buffers;
    match l
    case Begin(_) => BeginBooks(lay, s, l);
    case LogCheck(_) => CheckBooks(lay, s, l);
    case LogAppend(_, _) => AppendBooks(lay, s, l);
    case End(_) => EndBooks(lay, s, l);
    case CommitStep => CommitBooks(lay, s);
    case Crash => CrashBooks(s, Do(lay, s, l));
    case Bread(_, _) => BooksUnchanged(s, Do(lay, s, l));
    case Edit(_, _, _) => BooksUnchanged(s, Do(lay, s, l));
    case Brelse(_, _) => BooksUnchanged(s, Do(lay, s, l));
    case Recycle(_) => BooksUnchanged(s, Do(lay, s, l));
  }

  lemma AppendBooks(lay: Layout, s: State, l: Label)
    requires Books(s) && l.LogAppend? && CanStep(lay, s, l)
    ensures Books(Do(lay, s, l))
  {
    hide CallInv, IdInv, Buffers;
    AppendCalls(lay, s, l);
    AppendIds(lay, s, l);
  }

  // ---- Admission -----------------------------------------------------------------------------------------------

  /** While the log is open, begin_op refuses a call only if the blocks logged and MAXOPBLOCKS for each call, the new one
      included, are more than LOGSIZE. */
  lemma RefusedIffFull(lay: Layout, s: State, id: nat)
    requires Books(s) && s.phase == Running && !s.committing && id !in s.begun
    ensures !CanStep(lay, s, Begin(id)) <==> |s.lh| > LOGSIZE - MAXOPBLOCKS - MAXOPBLOCKS * |s.active|
  {
    hide IdInv, Unspent;
  }

  /** So a first call waits while more than 20 blocks are logged, a second one while more than 10 are, a third one as soon as
      anything is logged, and there is never a fourth. */
  lemma AdmittedCalls(lay: Layout, s: State, id: nat)
    requires Books(s) && s.phase == Running && !s.committing && id !in s.begun
    ensures CanStep(lay, s, Begin(id)) <==>
            || (|s.active| == 0 && |s.lh| <= 20) || (|s.active| == 1 && |s.lh| <= 10) || (|s.active| == 2 && s.lh == [])
  {
    hide CanStep, Books;
    RefusedIffFull(lay, s, id);
  }

  // ---- Steps of calls and readers, in a log area with room -------------------------------------------------------

  /** A change of the list of calls that keeps their names does not disturb the cache. */
  lemma CallsRenamed(lay: Layout, base: Disk, s: State, t: State)
    requires |base| == lay.blocks == |s.disk| && CacheInv(lay, base, s) && t.disk == s.disk && t.cache == s.cache
    requires Target(base, t) == Target(base, s) && Pending(t) == Pending(s)
    requires forall who :: InCall(s, who) ==> InCall(t, who)
    ensures CacheInv(lay, base, t)
  {
    hide Durable, ApplyAll, Target, Pending, InCall, Buffers;
    forall b | b in t.cache ensures BufOk(lay, base, t, b) {
      assert BufOk(lay, base, s, b);
    }
  }

  /** Disk and phase do not depend on the calls. */
  lemma CallsDoNotMatter(lay: Layout, base: Disk, s: State, t: State)
    requires DiskInv(lay, base, s) && PhaseInv(lay, base, s)
    requires t.disk == s.disk && t.cache == s.cache && t.lh == s.lh && t.committing == s.committing && t.phase == s.phase
    requires t.groups == s.groups && t.current.writes == s.current.writes
             && (s.current == NoGroup ==> t.current == NoGroup || s.phase == Running)
    ensures DiskInv(lay, base, t) && PhaseInv(lay, base, t)
  {
    hide Logical, Durable, ApplyAll, Header, Loggable, Buffers;
  }

  lemma BeginKeepsData(lay: Layout, base: Disk, s: State, l: Label)
    requires Inv(lay, base, s) && l.Begin? && CanStep(lay, s, l)
    ensures DataInv(lay, base, Do(lay, s, l))
  {
    hide DiskInv, PhaseInv, CacheInv, IdInv, Unspent, Buffers;
    var t := Do(lay, s, l);
    CallsDoNotMatter(lay, base, s, t);
    forall who | InCall(s, who) ensures InCall(t, who) {
      var i :| 0 <= i < |s.active| && s.active[i].id == who;
      assert t.active[i].id == who;
    }
    SameSize(lay, base, s);
    CallsRenamed(lay, base, s, t);
  }

  lemma SameSize(lay: Layout, base: Disk, s: State)
    requires DiskInv(lay, base, s)
    ensures |base| == lay.blocks == |s.disk|
  {
  }

  lemma CheckKeepsData(lay: Layout, base: Disk, s: State, l: Label)
    requires Inv(lay, base, s) && l.LogCheck? && CanStep(lay, s, l)
    ensures DataInv(lay, base, Do(lay, s, l))
  {
    hide DiskInv, PhaseInv, CacheInv, IdInv, Unspent, Buffers;
    var t := Do(lay, s, l);
    CallsDoNotMatter(lay, base, s, t);
    forall who | InCall(s, who) ensures InCall(t, who) {
      var i :| 0 <= i < |s.active| && s.active[i].id == who;
      assert t.active[i].id == who;
    }
    SameSize(lay, base, s);
    CallsRenamed(lay, base, s, t);
  }

  /** A home block that is not waiting to be installed is on disk in its newest version. */
  lemma HomeIsNewest(lay: Layout, base: Disk, s: State, b: nat)
    requires DiskInv(lay, base, s) && PhaseInv(lay, base, s) && lay.Home(b) && b !in Pending(s) && Up(s)
    ensures s.disk[b] == Target(base, s)[b]
  {
  }

  /** A phase depends on the cache only through the dirty buffers. */
  lemma PhaseKept(lay: Layout, base: Disk, s: State, t: State)
    requires DiskInv(lay, base, s) && PhaseInv(lay, base, s) && t == s.(cache := t.cache)
    requires forall b :: b in s.cache && s.cache[b].dirty ==> b in t.cache && t.cache[b].dirty
    ensures DiskInv(lay, base, t) && PhaseInv(lay, base, t)
  {
    hide Logical, Durable, ApplyAll, Header, Loggable, Buffers;
  }

  /** A change to one buffer that leaves its dirtiness alone disturbs nothing else. */
  lemma OneBufKeepsData(lay: Layout, base: Disk, s: State, t: State, b: nat)
    requires DataInv(lay, base, s) && b in t.cache && t == s.(cache := s.cache[b := t.cache[b]])
    requires BufOk(lay, base, t, b) && (b in s.cache ==> t.cache[b].dirty == s.cache[b].dirty)
    ensures DataInv(lay, base, t)
  {
    hide DiskInv, PhaseInv, Durable, ApplyAll, Target, Buffers;
    SameSize(lay, base, s);
    PhaseKept(lay, base, s, t);
    forall c | c in t.cache ensures BufOk(lay, base, t, c) {
      if c != b {
        assert BufOk(lay, base, s, c);
        SameBuf(lay, base, s, t, c);
      }
    }
  }

  lemma SameBuf(lay: Layout, base: Disk, s: State, t: State, c: nat)
    requires |base| == lay.blocks == |s.disk| && c in s.cache && c in t.cache && t.cache[c] == s.cache[c]
    requires t == s.(cache := t.cache) && BufOk(lay, base, s, c)
    ensures BufOk(lay, base, t, c)
  {
    hide Durable, ApplyAll, Buffers;
  }

  lemma BreadKeepsData(lay: Layout, base: Disk, s: State, l: Label)
    requires Inv(lay, base, s) && l.Bread? && CanStep(lay, s, l)
    ensures DataInv(lay, base, Do(lay, s, l))
  {
    hide DiskInv, PhaseInv, CallInv, IdInv, Durable, ApplyAll, Buffers;
    SameSize(lay, base, s);
    var t := Do(lay, s, l);
    if l.b in s.cache {
      assert BufOk(lay, base, s, l.b);
    } else {
      NotCachedNotPending(lay, base, s, l.b);
      HomeIsNewest(lay, base, s, l.b);
    }
    OneBufKeepsData(lay, base, s, t, l.b);
  }

  lemma NotCachedNotPending(lay: Layout, base: Disk, s: State, b: nat)
    requires DiskInv(lay, base, s) && PhaseInv(lay, base, s) && Up(s) && (b in s.cache ==> !s.cache[b].dirty)
    ensures b !in Pending(s)
  {
    hide Logical, Durable, ApplyAll, Header, DiskInv, Buffers;
  }

  lemma EditKeepsData(lay: Layout, base: Disk, s: State, l: Label)
    requires Inv(lay, base, s) && l.Edit? && CanStep(lay, s, l)
    ensures DataInv(lay, base, Do(lay, s, l))
  {
    hide DiskInv, PhaseInv, CallInv, IdInv, Durable, ApplyAll, Buffers;
    SameSize(lay, base, s);
    var t := Do(lay, s, l);
    assert BufOk(lay, base, s, l.b);
    assert t.active[l.i].id == t.cache[l.b].holder.value;
    OneBufKeepsData(lay, base, s, t, l.b);
  }

  lemma BrelseKeepsData(lay: Layout, base: Disk, s: State, l: Label)
    requires Inv(lay, base, s) && l.Brelse? && CanStep(lay, s, l)
    ensures DataInv(lay, base, Do(lay, s, l))
  {
    hide DiskInv, PhaseInv, CallInv, IdInv, Durable, ApplyAll, Buffers;
    SameSize(lay, base, s);
    assert BufOk(lay, base, s, l.b);
    OneBufKeepsData(lay, base, s, Do(lay, s, l), l.b);
  }

  lemma RecycleKeepsData(lay: Layout, base: Disk, s: State, l: Label)
    requires Inv(lay, base, s) && l.Recycle? && CanStep(lay, s, l)
    ensures DataInv(lay, base, Do(lay, s, l))
  {
    hide DiskInv, PhaseInv, CallInv, IdInv, Durable, ApplyAll, Target, Buffers;
    SameSize(lay, base, s);
    var t := Do(lay, s, l);
    PhaseKept(lay, base, s, t);
    forall c | c in t.cache ensures BufOk(lay, base, t, c) {
      assert BufOk(lay, base, s, c);
      SameBuf(lay, base, s, t, c);
    }
  }

  lemma CrashKeepsData(lay: Layout, base: Disk, s: State)
    requires lay.Valid() && DiskInv(lay, base, s)
    ensures DataInv(lay, base, Do(lay, s, Crash))
  {
    hide Logical, Durable, Header, CallInv, IdInv, Buffers;
  }

  lemma ApplyOneMore(d: Disk, writes: seq<Write>, w: Write)
    ensures ApplyAll(d, writes + [w]) == Apply(ApplyAll(d, writes), w)
  {
    assert (writes + [w])[..|writes|] == writes;
  }

  lemma AppendTarget(lay: Layout, base: Disk, s: State, l: Label)
    requires DataInv(lay, base, s) && l.LogAppend? && CanStep(lay, s, l)
    ensures lay.Home(l.b) && |base| == lay.blocks == |s.disk| && l.b < |base|
    ensures Target(base, Do(lay, s, l)) == Target(base, s)[l.b := s.cache[l.b].data]
  {
    hide Logical, Durable, Header, PhaseInv, Buffers;
    assert BufOk(lay, base, s, l.b);
    ApplyOneMore(Durable(base, s.groups), s.current.writes, Write(s.active[l.i].id, l.b, s.cache[l.b].data));
  }

  lemma AppendCache(lay: Layout, base: Disk, s: State, l: Label)
    requires Inv(lay, base, s) && l.LogAppend? && CanStep(lay, s, l)
    ensures |base| == lay.blocks == |s.disk| && CacheInv(lay, base, Do(lay, s, l))
  {
    hide DiskInv, PhaseInv, IdInv, Target, Unspent, Buffers;
    var t := Do(lay, s, l);
    AppendTarget(lay, base, s, l);
    assert s.phase == Running;
    forall c | c in t.cache ensures BufOk(lay, base, t, c) {
      assert BufOk(lay, base, s, c);
      if s.cache[c].holder.Some? && InCall(s, s.cache[c].holder.value) {
        var i :| 0 <= i < |s.active| && s.active[i].id == s.cache[c].holder.value;
        assert t.active[i].id == s.active[i].id;
      }
    }
  }

  lemma AppendFits(lay: Layout, base: Disk, s: State, l: Label)
    requires Inv(lay, base, s) && l.LogAppend? && CanStep(lay, s, l) && StillFits(lay, s, l)
    ensures Loggable(lay, Do(lay, s, l).lh)
  {
    hide DiskInv, CacheInv, IdInv, Unspent, BeforeCommit, Target, Buffers;
    AppendCalls(lay, s, l);
    AppendTarget(lay, base, s, l);
    UnspentNatural(Do(lay, s, l).active);
  }

  lemma {:induction false} UnspentNatural(active: seq<Call>)
    requires forall k :: 0 <= k < |active| ==> active[k].spent <= MAXOPBLOCKS
    ensures Unspent(active) >= 0
  {
    if active != [] {
      UnspentNatural(active[1..]);
    }
  }

  lemma AppendPhase(lay: Layout, base: Disk, s: State, l: Label)
    requires Inv(lay, base, s) && l.LogAppend? && CanStep(lay, s, l) && StillFits(lay, s, l)
    ensures DiskInv(lay, base, Do(lay, s, l)) && PhaseInv(lay, base, Do(lay, s, l))
  {
    hide Logical, Durable, ApplyAll, Header, CacheInv, IdInv, Target, Unspent, Loggable, Buffers;
    AppendFits(lay, base, s, l);
    AppendTarget(lay, base, s, l);
  }

  lemma AppendKeepsData(lay: Layout, base: Disk, s: State, l: Label)
    requires Inv(lay, base, s) && l.LogAppend? && CanStep(lay, s, l) && StillFits(lay, s, l)
    ensures DataInv(lay, base, Do(lay, s, l))
  {
    hide DiskInv, PhaseInv, CacheInv, CallInv, IdInv, Buffers;
    AppendPhase(lay, base, s, l);
    AppendCache(lay, base, s, l);
  }

  // ---- end_op ------------------------------------------------------------------------------------------

  lemma DurableOneMore(base: Disk, groups: seq<Group>, g: Group)
    ensures Durable(base, groups + [g]) == ApplyAll(Durable(base, groups), g.writes)
  {
    assert (groups + [g])[..|groups|] == groups;
  }

  /** Closing the open group makes its target the durable state. */
  lemma CloseGroup(base: Disk, s: State, t: State)
    requires t.groups == s.groups + [s.current] && t.current == NoGroup
    ensures Durable(base, t.groups) == Target(base, s) && Target(base, t) == Target(base, s)
  {
    DurableOneMore(base, s.groups, s.current);
  }

  lemma EndCache(lay: Layout, base: Disk, s: State, l: Label)
    requires Inv(lay, base, s) && l.End? && CanStep(lay, s, l)
    ensures |base| == lay.blocks == |s.disk| && CacheInv(lay, base, Do(lay, s, l))
  {
    hide DiskInv, PhaseInv, IdInv, Unspent, Durable, ApplyAll, Buffers;
    SameSize(lay, base, s);
    var t := Do(lay, s, l);
    if t.groups != s.groups {
      CloseGroup(base, s, t);
    }
    assert Target(base, t) == Target(base, s);
    hide Target, Buffers;
    forall c | c in t.cache ensures BufOk(lay, base, t, c) {
      assert BufOk(lay, base, s, c);
      if s.cache[c].holder.Some? && InCall(s, s.cache[c].holder.value) {
        var i :| 0 <= i < |s.active| && s.active[i].id == s.cache[c].holder.value;
        assert t.active[if i < l.i then i else i - 1] == s.active[i];
      }
    }
  }

  lemma EndPhase(lay: Layout, base: Disk, s: State, l: Label)
    requires Inv(lay, base, s) && l.End? && CanStep(lay, s, l)
    ensures DiskInv(lay, base, Do(lay, s, l)) && PhaseInv(lay, base, Do(lay, s, l))
  {
    hide Logical, Durable, ApplyAll, Header, CacheInv, IdInv, Target, Unspent, Loggable, Buffers;
    var t := Do(lay, s, l);
    assert s.phase == Running;
    if t.groups != s.groups {
      CloseGroup(base, s, t);
      forall b: nat | lay.Home(b) ensures Logical(lay, t.disk, b) == Durable(base, t.groups)[b] {
      }
    } else {
      SameTarget(base, s, t);
    }
  }

  lemma SameTarget(base: Disk, s: State, t: State)
    requires t.groups == s.groups && t.current == s.current
    ensures Target(base, t) == Target(base, s)
  {
  }

  lemma EndKeepsData(lay: Layout, base: Disk, s: State, l: Label)
    requires Inv(lay, base, s) && l.End? && CanStep(lay, s, l)
    ensures DataInv(lay, base, Do(lay, s, l))
  {
    hide DiskInv, PhaseInv, CacheInv, CallInv, IdInv, Buffers;
    EndPhase(lay, base, s, l);
    EndCache(lay, base, s, l);
    assert forall k :: 0 <= k < |Do(lay, s, l).active| ==> Do(lay, s, l).active[k] == s.active[if k < l.i then k else k + 1];
  }

  // ---- The disk writes of commit and of recovery ---------------------------------------------------------

  /** While no call is active nobody edits a buffer. */
  lemma NobodyEdits(lay: Layout, base: Disk, s: State, b: nat)
    requires Inv(lay, base, s) && s.active == [] && b in s.cache
    ensures !s.cache[b].edited
  {
    hide Logical, Durable, ApplyAll, Header, PhaseInv, IdInv, Target, Unspent, Buffers;
    assert BufOk(lay, base, s, b);
  }

  /** bread of a block of the log area gives what is on disk. */
  lemma ReadLogBlock(lay: Layout, base: Disk, s: State, b: nat)
    requires Inv(lay, base, s) && lay.start <= b < lay.start + lay.size
    ensures b < |s.disk| && Read(s, b) == s.disk[b]
  {
    hide Logical, Durable, ApplyAll, Header, PhaseInv, IdInv, Target, Unspent, Buffers;
    if b in s.cache {
      assert BufOk(lay, base, s, b);
    }
  }

  /** A write to a block of the log area, cached or not, keeps the cache in order. */
  lemma WriteLogBlockCache(lay: Layout, base: Disk, s: State, t: State, b: nat, data: Block)
    requires |base| == lay.blocks == |s.disk| && CacheInv(lay, base, s)
    requires lay.start <= b < lay.start + lay.size <= lay.blocks
    requires t.disk == s.disk[b := data] && t.cache == s.cache[b := Buf(data, false, None, false)]
    requires Target(base, t) == Target(base, s) && Pending(t) == Pending(s) && t.active == s.active
    ensures CacheInv(lay, base, t)
  {
    hide Durable, ApplyAll, Target, Pending, Buffers;
    forall c | c in t.cache ensures BufOk(lay, base, t, c) {
      if c != b {
        assert BufOk(lay, base, s, c);
      }
    }
  }

  /** The block copied into the log is the newest version. */
  lemma WritingLogData(lay: Layout, base: Disk, s: State)
    requires Inv(lay, base, s) && s.phase.WritingLog?
    ensures var tail := s.phase.tail;
            && s.active == [] && tail < |s.lh| && tail + 1 < lay.size && lay.Home(s.lh[tail])
            && s.lh[tail] < |s.disk| && Read(s, s.lh[tail]) == Target(base, s)[s.lh[tail]]
  {
    hide Logical, Durable, ApplyAll, Header, Unspent, IdInv, Buffers;
    assert BufOk(lay, base, s, s.lh[s.phase.tail]);
    NobodyEdits(lay, base, s, s.lh[s.phase.tail]);
  }

  lemma WritingLogKeepsData(lay: Layout, base: Disk, s: State)
    requires Inv(lay, base, s) && s.phase.WritingLog? && CanStep(lay, s, CommitStep)
    ensures DataInv(lay, base, Commit(lay, s))
  {
    hide Logical, Durable, ApplyAll, Header, CacheInv, Unspent, CallInv, IdInv, Buffers;
    var t, tail := Commit(lay, s), s.phase.tail;
    WritingLogData(lay, base, s);
    LogAppendIsSilent(lay, s.disk, tail, Read(s, s.lh[tail]));
    WriteLogBlockCache(lay, base, s, t, lay.start + 1 + tail, Read(s, s.lh[tail]));
  }

  lemma WritingHeadKeepsData(lay: Layout, base: Disk, s: State)
    requires Inv(lay, base, s) && s.phase.WritingHead? && CanStep(lay, s, CommitStep)
    ensures DataInv(lay, base, Commit(lay, s))
  {
    hide Logical, Durable, ApplyAll, Header, Target, CallInv, IdInv, WithHeader, Buffers;
    var t := Commit(lay, s);
    ReadLogBlock(lay, base, s, lay.start);
    CloseGroup(base, s, t);
    HeaderIsWritten(lay, s.disk, s.lh);
    forall b: nat | lay.Home(b) ensures Logical(lay, t.disk, b) == Durable(base, t.groups)[b] {
      HeaderCommits(lay, s.disk, s.lh, b);
      EmptyLogIsLiteral(lay, s.disk, b);
    }
    WriteLogBlockCache(lay, base, s, t, lay.start, t.disk[lay.start]);
  }

  /** The block being installed gets the durable version, which is in the log. */
  lemma InstallingData(lay: Layout, base: Disk, s: State)
    requires Inv(lay, base, s) && s.phase.Installing?
    ensures var tail := s.phase.tail;
            && tail < |s.lh| && lay.Home(s.lh[tail]) && lay.start + 1 + tail < |s.disk|
               && Read(s, lay.start + 1 + tail) == s.disk[lay.start + 1 + tail]
            && s.disk[lay.start + 1 + tail] == Target(base, s)[s.lh[tail]]
  {
    hide Durable, CallInv, IdInv, Unspent, Buffers;
    var tail := s.phase.tail;
    ReadLogBlock(lay, base, s, lay.start + 1 + tail);
    FindIs(lay, s.lh, tail);
    assert lay.Home(s.lh[tail]);
    assert Logical(lay, s.disk, s.lh[tail]) == Durable(base, s.groups)[s.lh[tail]];
  }

  lemma InstallingCache(lay: Layout, base: Disk, s: State)
    requires Inv(lay, base, s) && s.phase.Installing? && CanStep(lay, s, CommitStep)
    ensures CacheInv(lay, base, Commit(lay, s))
  {
    hide Logical, Durable, ApplyAll, Header, CallInv, IdInv, Unspent, PhaseInv, Loggable, Buffers;
    var t, tail := Commit(lay, s), s.phase.tail;
    InstallingData(lay, base, s);
    assert Target(base, t) == Target(base, s);
    hide Target, Buffers;
    forall c | c in t.cache ensures BufOk(lay, base, t, c) {
      if c != s.lh[tail] {
        assert BufOk(lay, base, s, c);
        PendingShrinks(s.lh, tail, c);
      }
    }
  }

  lemma PendingShrinks(lh: seq<nat>, tail: nat, c: nat)
    requires tail < |lh| && c != lh[tail]
    ensures c in lh[tail..] ==> c in lh[tail + 1..]
  {
    assert lh[tail..] == [lh[tail]] + lh[tail + 1..];
  }

  lemma InstallingDisk(lay: Layout, base: Disk, s: State)
    requires Inv(lay, base, s) && s.phase.Installing? && CanStep(lay, s, CommitStep)
    ensures DiskInv(lay, base, Commit(lay, s))
  {
    hide Logical, Durable, ApplyAll, CacheInv, CallInv, IdInv, Unspent, Target, Buffers;
    InstallingData(lay, base, s);
    InstallIsSilent(lay, s.disk, s.phase.tail);
  }

  lemma InstallingKeepsData(lay: Layout, base: Disk, s: State)
    requires Inv(lay, base, s) && s.phase.Installing? && CanStep(lay, s, CommitStep)
    ensures DataInv(lay, base, Commit(lay, s))
  {
    hide DiskInv, PhaseInv, CacheInv, Commit, CanStep, Books;
    InstallingDisk(lay, base, s);
    InstallingPhase(lay, base, s);
    InstallingCache(lay, base, s);
  }

  lemma InstallingPhase(lay: Layout, base: Disk, s: State)
    requires Inv(lay, base, s) && s.phase.Installing? && CanStep(lay, s, CommitStep) && DiskInv(lay, base, Commit(lay, s))
    ensures PhaseInv(lay, base, Commit(lay, s))
  {
    hide Logical, Durable, ApplyAll, CacheInv, CallInv, IdInv, Unspent, Target, BeforeCommit, Buffers;
    InstallingData(lay, base, s);
  }

  lemma NotRunning(s: State)
    requires CallInv(s) && s.phase != Running
    ensures s.active == []
  {
  }

  lemma ClearingKeepsData(lay: Layout, base: Disk, s: State)
    requires Inv(lay, base, s) && s.phase.Clearing? && CanStep(lay, s, CommitStep)
    ensures DataInv(lay, base, Commit(lay, s))
  {
    hide Logical, Durable, CallInv, IdInv, Unspent, WithHeader, Loggable, Buffers;
    var t := Commit(lay, s);
    ReadLogBlock(lay, base, s, lay.start);
    ClearIsSilent(lay, s.disk);
    NotRunning(s);
    NoneLoggable(lay);
    assert Target(base, t) == Target(base, s);
    forall c | c in t.cache ensures BufOk(lay, base, t, c) {
      if c != lay.start {
        assert BufOk(lay, base, s, c);
      }
    }
  }

  lemma NoneLoggable(lay: Layout)
    requires lay.Valid()
    ensures Loggable(lay, [])
  {
  }

  lemma FinishingKeepsData(lay: Layout, base: Disk, s: State)
    requires Inv(lay, base, s) && s.phase.Finishing?
    ensures DataInv(lay, base, Commit(lay, s))
  {
    hide Logical, Durable, CallInv, IdInv, Unspent, Loggable, Header;
    var t := Commit(lay, s);
    NotRunning(s);
    forall c | c in t.cache ensures BufOk(lay, base, t, c) {
      assert BufOk(lay, base, s, c);
    }
  }

  lemma RebootedKeepsData(lay: Layout, base: Disk, s: State)
    requires Inv(lay, base, s) && s.phase.Rebooted? && CanStep(lay, s, CommitStep)
    ensures DataInv(lay, base, Commit(lay, s))
  {
    hide Logical, Durable, CallInv, IdInv, Unspent, Header, Buffers;
    var t := Commit(lay, s);
    NotRunning(s);
    forall c | c in t.cache ensures BufOk(lay, base, t, c) {
      assert BufOk(lay, base, s, c);
    }
  }

  lemma CommitKeepsData(lay: Layout, base: Disk, s: State)
    requires Inv(lay, base, s) && CanStep(lay, s, CommitStep)
    ensures DataInv(lay, base, Commit(lay, s))
  {
    hide Inv, Commit, Buffers;
    match s.phase
    case WritingLog(_) => WritingLogKeepsData(lay, base, s);
    case WritingHead => WritingHeadKeepsData(lay, base, s);
    case Installing(_) => InstallingKeepsData(lay, base, s);
    case Clearing => ClearingKeepsData(lay, base, s);
    case Finishing => FinishingKeepsData(lay, base, s);
    case Rebooted => RebootedKeepsData(lay, base, s);
  }

  /** Every step of every process, and every crash, keeps the invariant, as long as the list fits. */
  lemma FittingStepKeepsInv(lay: Layout, base: Disk, s: State, l: Label)
    requires Inv(lay, base, s) && CanStep(lay, s, l) && StillFits(lay, s, l)
    ensures Inv(lay, base, Do(lay, s, l))
  {
    hide PhaseInv, CacheInv, DiskInv, Books, Commit, Buffers;
    StepKeepsBooks(lay, s, l);
    match l
    case Begin(_) => BeginKeepsData(lay, base, s, l);
    case Bread(_, _) => BreadKeepsData(lay, base, s, l);
    case Edit(_, _, _) => EditKeepsData(lay, base, s, l);
    case LogCheck(_) => CheckKeepsData(lay, base, s, l);
    case LogAppend(_, _) => AppendKeepsData(lay, base, s, l);
    case Brelse(_, _) => BrelseKeepsData(lay, base, s, l);
    case End(_) => EndKeepsData(lay, base, s, l);
    case CommitStep => CommitKeepsData(lay, base, s);
    case Recycle(_) => RecycleKeepsData(lay, base, s, l);
    case Crash => CrashKeepsData(lay, base, s);
  }

  /** The list fits a large log area because of the reservations, and in one of one block nothing is appended. */
  lemma RoomyFits(lay: Layout, base: Disk, s: State, l: Label)
    requires RoomyInv(lay, base, s) && CanStep(lay, s, l)
    ensures StillFits(lay, s, l)
  {
    hide DataInv, IdInv, Unspent, Buffers;
    if l.LogAppend? {
      AppendCalls(lay, s, l);
      UnspentNatural(Do(lay, s, l).active);
    }
  }

  /** So every step keeps the invariant in a log area with room. */
  lemma StepKeepsInv(lay: Layout, base: Disk, s: State, l: Label)
    requires RoomyInv(lay, base, s) && CanStep(lay, s, l)
    ensures RoomyInv(lay, base, Do(lay, s, l))
  {
    RoomyFits(lay, base, s, l);
    FittingStepKeepsInv(lay, base, s, l);
    hide Inv, Commit, Buffers;
    if l == CommitStep {
      InvIdle(lay, base, s);
    }
  }

  lemma InvIdle(lay: Layout, base: Disk, s: State)
    requires Inv(lay, base, s) && CanStep(lay, s, CommitStep)
    ensures Commit(lay, s).active == s.active
  {
  }

  // ---- Where the buffers are used up before the log area is ----------------------------------------------------

  ghost predicate Distinct(lh: seq<nat>) { forall i, j :: 0 <= i < j < |lh| ==> lh[i] != lh[j] }

  /** More blocks have been logged than the log area holds, and none of them can have left the cache. Nothing has been written
      since. */
  ghost predicate Jammed(lay: Layout, base: Disk, s: State)
  {
    && lay.Valid() && DiskInv(lay, base, s) && s.disk[lay.start][0] == 0 && Books(s)
    && ((s.phase == Running && !s.committing) || (s.phase == WritingLog(0) && s.committing))
    && |s.lh| >= lay.size && Distinct(s.lh) && AllDirty(s) && LogIdle(lay, s)
  }

  ghost predicate AllDirty(s: State) { forall i :: 0 <= i < |s.lh| ==> s.lh[i] in s.cache && s.cache[s.lh[i]].dirty }

  /** No block of the log area is held or dirty. */
  ghost predicate LogIdle(lay: Layout, s: State) { forall b :: b in Busy(s) ==> lay.Home(b) }

  lemma {:induction false} DistinctCount(lh: seq<nat>, x: set<nat>)
    requires Distinct(lh) && forall i :: 0 <= i < |lh| ==> lh[i] in x
    ensures |lh| <= |x|
  {
    if lh != [] {
      var last := lh[|lh| - 1];
      DistinctCount(lh[..|lh| - 1], x - {last});
    }
  }

  lemma DirtyCount(s: State)
    requires Distinct(s.lh) && AllDirty(s)
    ensures |s.lh| <= |Busy(s)|
  {
    DistinctCount(s.lh, Busy(s));
  }

  /** Only bread takes a buffer into use. */
  lemma BusyShrinks(lay: Layout, s: State, l: Label)
    requires CanStep(lay, s, l) && !l.Bread?
    ensures Busy(Do(lay, s, l)) <= Busy(s)
  {
    hide Buffers, Commit, Quiet, InCall;
    if l.CommitStep? {
      CommitBusy(lay, s);
    }
  }

  lemma CommitBusy(lay: Layout, s: State)
    requires CanStep(lay, s, CommitStep)
    ensures Busy(Commit(lay, s)) <= Busy(s)
  {
    hide Buffers, Header, WithHeader;
  }

  /** Steps do not lead out of what bget has buffers for. */
  lemma StepKeepsBusy(lay: Layout, s: State, l: Label)
    requires CanStep(lay, s, l) && |Busy(s)| <= lay.nbuf
    ensures |Busy(Do(lay, s, l))| <= lay.nbuf
  {
    hide Commit, Allowed, Copies;
    if l.Bread? {
      assert Busy(Do(lay, s, l)) == Busy(s) + {l.b} && Busy(s) + {} == Busy(s);
    } else {
      BusyShrinks(lay, s, l);
      hide Do, Busy;
      SubsetSize(Busy(Do(lay, s, l)), Busy(s));
    }
  }

  /** A commit finds no buffer for its first log block. */
  lemma JammedCommit(lay: Layout, base: Disk, s: State)
    requires Jammed(lay, base, s) && 1 < lay.size && lay.nbuf <= lay.size
    ensures !CanStep(lay, s, CommitStep)
  {
    hide DiskInv, Books;
    DirtyCount(s);
    assert Busy(s) + {} == Busy(s);
  }

  lemma JammedStaysPut(lay: Layout, base: Disk, s: State, l: Label)
    requires Jammed(lay, base, s) && CanStep(lay, s, l) && !l.CommitStep? && !l.Crash?
    ensures Jammed(lay, base, Do(lay, s, l))
  {
    StepKeepsBooks(lay, s, l);
    hide Books, Logical, Durable, Header, Buffers;
    var t := Do(lay, s, l);
    JammedDisk(lay, base, s, t);
    hide DiskInv, Buffers;
    assert LogIdle(lay, t) by {
      forall b | b in Busy(t) ensures lay.Home(b) {
        assert b in Busy(s) || (l.Bread? && b == l.b);
      }
    }
  }

  lemma JammedDisk(lay: Layout, base: Disk, s: State, t: State)
    requires DiskInv(lay, base, s) && t.disk == s.disk && t.groups == s.groups
    ensures DiskInv(lay, base, t)
  {
    hide Logical, Durable, Header, Buffers;
  }

  lemma JammedStep(lay: Layout, base: Disk, s: State, l: Label)
    requires Jammed(lay, base, s) && CanStep(lay, s, l) && 1 < lay.size && lay.nbuf <= lay.size
    ensures Jammed(lay, base, Do(lay, s, l)) || Inv(lay, base, Do(lay, s, l))
  {
    JammedCommit(lay, base, s);
    if l.Crash? {
      CrashKeepsData(lay, base, s);
      StepKeepsBooks(lay, s, l);
    } else {
      JammedStaysPut(lay, base, s, l);
    }
  }

  /** One block more than the log area holds. */
  lemma InvJams(lay: Layout, base: Disk, s: State, l: Label)
    requires Inv(lay, base, s) && CanStep(lay, s, l) && !StillFits(lay, s, l)
    ensures Jammed(lay, base, Do(lay, s, l))
  {
    StepKeepsBooks(lay, s, l);
    hide IdInv, Logical, Durable, Header, Buffers, Target, Unspent, Quiet;
    var t := Do(lay, s, l);
    JammedDisk(lay, base, s, t);
    hide DiskInv, Buffers;
    assert LogIdle(lay, t) by {
      forall b | b in Busy(t) ensures lay.Home(b) {
        assert BufOk(lay, base, s, b);
      }
    }
  }

  /** With fewer buffers than the log area has blocks the list never outgrows it. */
  lemma FewBuffersFit(lay: Layout, base: Disk, s: State, l: Label)
    requires Inv(lay, base, s) && CanStep(lay, s, l) && |Busy(s)| <= lay.nbuf < lay.size
    ensures StillFits(lay, s, l)
  {
    if l.LogAppend? {
      InvPinned(lay, base, s);
      hide Inv, Buffers, Quiet;
      AppendedBusy(lay, s, l);
      hide CanStep, Do, Distinct;
      DistinctCount(Do(lay, s, l).lh, Busy(s));
    }
  }

  lemma AppendedBusy(lay: Layout, s: State, l: Label)
    requires CanStep(lay, s, l) && l.LogAppend? && Distinct(s.lh) && AllDirty(s)
    ensures Distinct(Do(lay, s, l).lh) && forall x :: x in Do(lay, s, l).lh ==> x in Busy(s)
  {
    hide Buffers, Quiet;
  }

  lemma InvPinned(lay: Layout, base: Disk, s: State)
    requires Inv(lay, base, s) && s.active != []
    ensures Distinct(s.lh) && AllDirty(s) && s.phase == Running
  {
    hide DiskInv, CacheInv, IdInv, Unspent, Buffers;
  }

  // ---- Every run --------------------------------------------------------------------------------------------

  /** A formatted disk with an empty log, mounted for the first time. */
  ghost predicate Init(lay: Layout, base: Disk, s: State)
  {
    && lay.Valid() && DiskOk(lay, base) && base[lay.start][0] == 0
    && s == State(base, map[], [], 0, false, Running, [], {}, NoGroup, [], {})
  }

  ghost predicate IsRun(lay: Layout, base: Disk, run: seq<State>, labels: seq<Label>)
  {
    && |run| == |labels| + 1 && Init(lay, base, run[0])
    && forall k :: 0 <= k < |labels| ==> Follows(lay, run, labels, k)
  }

  ghost predicate Follows(lay: Layout, run: seq<State>, labels: seq<Label>, k: nat)
    requires k < |labels| && |run| == |labels| + 1
  {
    CanStep(lay, run[k], labels[k]) && run[k + 1] == Do(lay, run[k], labels[k])
  }

  lemma InitInv(lay: Layout, base: Disk, s: State)
    requires Init(lay, base, s)
    ensures Inv(lay, base, s) && s.active == [] && Busy(s) == {}
  {
    forall b: nat | lay.Home(b) ensures Logical(lay, s.disk, b) == Durable(base, s.groups)[b] {
      EmptyLogIsLiteral(lay, base, b);
    }
    hide Logical, Durable, Buffers;
  }

  /** Over every run, the bookkeeping holds. */
  lemma {:induction false} RunKeepsBooks(lay: Layout, base: Disk, run: seq<State>, labels: seq<Label>, k: nat)
    requires IsRun(lay, base, run, labels) && k < |run|
    ensures Books(run[k])
  {
    hide Books, Do, CanStep;
    if k == 0 {
      InitInv(lay, base, run[0]);
    } else {
      RunKeepsBooks(lay, base, run, labels, k - 1);
      assert Follows(lay, run, labels, k - 1);
      StepKeepsBooks(lay, run[k - 1], labels[k - 1]);
    }
  }

  /** Over every run in a log area with room, the whole invariant holds. */
  lemma {:induction false} RunKeepsInv(lay: Layout, base: Disk, run: seq<State>, labels: seq<Label>, k: nat)
    requires IsRun(lay, base, run, labels) && k < |run| && Roomy(lay)
    ensures RoomyInv(lay, base, run[k])
  {
    hide Inv, Do, CanStep, Init;
    if k == 0 {
      InitInv(lay, base, run[0]);
    } else {
      RunKeepsInv(lay, base, run, labels, k - 1);
      assert Follows(lay, run, labels, k - 1);
      hide RoomyInv;
      StepKeepsInv(lay, base, run[k - 1], labels[k - 1]);
    }
  }

  /** Bget never has more than nbuf buffers in use. */
  lemma {:induction false} RunKeepsBusy(lay: Layout, base: Disk, run: seq<State>, labels: seq<Label>, k: nat)
    requires IsRun(lay, base, run, labels) && k < |run|
    ensures |Busy(run[k])| <= lay.nbuf
  {
    hide Do, CanStep, Busy, Init;
    if k == 0 {
      InitInv(lay, base, run[0]);
    } else {
      RunKeepsBusy(lay, base, run, labels, k - 1);
      assert Follows(lay, run, labels, k - 1);
      StepKeepsBusy(lay, run[k - 1], labels[k - 1]);
    }
  }

  /** Over every run in a log area that is larger than the cache, too. */
  lemma {:induction false} RunKeepsFit(lay: Layout, base: Disk, run: seq<State>, labels: seq<Label>, k: nat)
    requires IsRun(lay, base, run, labels) && k < |run| && lay.nbuf < lay.size
    ensures Inv(lay, base, run[k])
  {
    hide Inv, Do, CanStep, Busy, Init;
    if k == 0 {
      InitInv(lay, base, run[0]);
    } else {
      RunKeepsFit(lay, base, run, labels, k - 1);
      RunKeepsBusy(lay, base, run, labels, k - 1);
      assert Follows(lay, run, labels, k - 1);
      FewBuffersFit(lay, base, run[k - 1], labels[k - 1]);
      FittingStepKeepsInv(lay, base, run[k - 1], labels[k - 1]);
    }
  }

  /** Log areas with room, and those with at least as many blocks as the cache has buffers. */
  predicate Ample(lay: Layout) { Roomy(lay) || lay.nbuf <= lay.size }

  /** Over every run in those, the list fits, or it has used up the buffers and commit cannot write. */
  lemma {:induction false} RunKeepsAmple(lay: Layout, base: Disk, run: seq<State>, labels: seq<Label>, k: nat)
    requires IsRun(lay, base, run, labels) && k < |run| && Ample(lay)
    ensures Inv(lay, base, run[k]) || Jammed(lay, base, run[k])
  {
    hide Inv, Jammed, Do, CanStep, StillFits, Init;
    if Roomy(lay) {
      RunKeepsInv(lay, base, run, labels, k);
    } else if k == 0 {
      InitInv(lay, base, run[0]);
    } else {
      RunKeepsAmple(lay, base, run, labels, k - 1);
      assert Follows(lay, run, labels, k - 1);
      var s, l := run[k - 1], labels[k - 1];
      InitValid(lay, base, run[0]);
      if Jammed(lay, base, s) {
        JammedStep(lay, base, s, l);
      } else if StillFits(lay, s, l) {
        FittingStepKeepsInv(lay, base, s, l);
      } else {
        InvJams(lay, base, s, l);
      }
    }
  }

  lemma InitValid(lay: Layout, base: Disk, s: State)
    requires Init(lay, base, s)
    ensures lay.Valid()
  {
  }

  /** Recovering the disk of state s gives exactly the state after the groups committed so far. */
  ghost predicate CrashSafe(lay: Layout, base: Disk, s: State)
  {
    && DiskOk(lay, s.disk) && |base| == lay.blocks
    && forall b: nat :: lay.Home(b) ==> Recovered(lay, s.disk)[b] == Durable(base, s.groups)[b]
  }

  /** In every run in an ample log area, whatever crashes it contains: recovering the disk of this moment gives exactly the
      state after the groups committed so far. */
  lemma CrashRecoversCommittedGroups(lay: Layout, base: Disk, run: seq<State>, labels: seq<Label>, k: nat)
    requires IsRun(lay, base, run, labels) && k < |run| && Ample(lay)
    ensures CrashSafe(lay, base, run[k])
  {
    hide Logical, Durable, Recovered, PhaseInv, CacheInv, Books, IsRun, Buffers;
    RunKeepsAmple(lay, base, run, labels, k);
    forall b: nat | lay.Home(b) ensures Recovered(lay, run[k].disk)[b] == Durable(base, run[k].groups)[b] {
      RecoveredIsLogical(lay, run[k].disk, b);
    }
  }

  lemma StepKeepsGroups(lay: Layout, s: State, l: Label)
    requires CanStep(lay, s, l)
    ensures s.groups <= Do(lay, s, l).groups
  {
  }

  /** What is committed stays committed: the groups at any moment are a prefix of those at any later moment. */
  lemma {:induction false} GroupsOnlyGrow(lay: Layout, base: Disk, run: seq<State>, labels: seq<Label>, j: nat, k: nat)
    requires IsRun(lay, base, run, labels) && j <= k < |run|
    ensures run[j].groups <= run[k].groups
  {
    hide Do, CanStep, Init;
    if j < k {
      GroupsOnlyGrow(lay, base, run, labels, j, k - 1);
      assert Follows(lay, run, labels, k - 1);
      StepKeepsGroups(lay, run[k - 1], labels[k - 1]);
    }
  }

  /** A call's writes fall in one group only, be it committed or still open. */
  lemma CallsAreAtomic(lay: Layout, base: Disk, run: seq<State>, labels: seq<Label>, k: nat, g: nat, h: nat, w: nat, x: nat)
    requires IsRun(lay, base, run, labels) && k < |run|
    requires g < |run[k].groups| && w < |run[k].groups[g].writes|
    requires h <= |run[k].groups|
    requires var other := if h < |run[k].groups| then run[k].groups[h] else run[k].current;
             x < |other.writes| && other.writes[x].call == run[k].groups[g].writes[w].call
    ensures g == h
  {
    hide CallInv, Accounted, Buffers;
    RunKeepsBooks(lay, base, run, labels, k);
    var s := run[k];
    assert GroupOk(s, s.groups[g]) && GroupOk(s, s.current);
    assert h < |s.groups| ==> GroupOk(s, s.groups[h]);
  }

  /** The panic in end_op is unreachable, and commits happen only between calls. */
  lemma CommitsOnlyBetweenCalls(lay: Layout, base: Disk, run: seq<State>, labels: seq<Label>, k: nat)
    requires IsRun(lay, base, run, labels) && k < |run|
    ensures run[k].outstanding == |run[k].active|
    ensures run[k].committing ==> run[k].outstanding == 0
    ensures run[k].active != [] ==> !run[k].committing && run[k].phase == Running
  {
    hide IdInv, Unspent, Buffers;
    RunKeepsBooks(lay, base, run, labels, k);
  }

  /** Until the commit point every home block on disk is its durable version: nothing uncommitted gets there. */
  lemma NothingUncommittedAtHome(lay: Layout, base: Disk, run: seq<State>, labels: seq<Label>, k: nat, b: nat)
    requires IsRun(lay, base, run, labels) && k < |run| && lay.Home(b) && Ample(lay)
    requires run[k].phase.Running? || run[k].phase.WritingLog? || run[k].phase.WritingHead?
    ensures |run[k].disk| == |base| == lay.blocks && run[k].disk[b] == Durable(base, run[k].groups)[b]
  {
    hide Logical, Durable, CacheInv, Books, ApplyAll, Header, Buffers;
    RunKeepsAmple(lay, base, run, labels, k);
    EmptyLogIsLiteral(lay, run[k].disk, b);
  }

  /** The reservations hold: the list plus the unspent budgets of all calls fits LOGSIZE, so a call with budget left does not
      meet the guard on LOGSIZE in log_write. */
  lemma LogSpaceSuffices(lay: Layout, base: Disk, run: seq<State>, labels: seq<Label>, k: nat, i: nat)
    requires IsRun(lay, base, run, labels) && k < |run| && i < |run[k].active|
    ensures |run[k].lh| + Unspent(run[k].active) <= LOGSIZE
    ensures run[k].active[i].spent < MAXOPBLOCKS ==> |run[k].lh| < LOGSIZE
  {
    hide IdInv, Buffers;
    RunKeepsBooks(lay, base, run, labels, k);
    UnspentPositive(run[k].active, i);
  }

  /** When end_op's commit has written its last block, the open group is empty and every home block on disk is its
      durable version. */
  lemma CommitEndsDurable(lay: Layout, base: Disk, run: seq<State>, labels: seq<Label>, k: nat, b: nat)
    requires IsRun(lay, base, run, labels) && k < |run| && lay.Home(b) && run[k].phase == Finishing && Ample(lay)
    ensures |run[k].disk| == |base| && run[k].current == NoGroup && run[k].disk[b] == Durable(base, run[k].groups)[b]
  {
    hide Logical, Durable, CacheInv, Books, ApplyAll, Header, Buffers;
    RunKeepsAmple(lay, base, run, labels, k);
    EmptyLogIsLiteral(lay, run[k].disk, b);
  }

  /** Every call ever begun is in the open group, in a committed one, or was lost in a crash, and never in two of these. */
  lemma CallsAreAccounted(lay: Layout, base: Disk, run: seq<State>, labels: seq<Label>, k: nat, id: nat)
    requires IsRun(lay, base, run, labels) && k < |run| && id in run[k].begun
    ensures Accounted(run[k], id)
    ensures id in run[k].lost ==> id !in run[k].current.calls
    ensures id in run[k].lost ==> forall g :: 0 <= g < |run[k].groups| ==> id !in run[k].groups[g].calls
  {
    hide CallInv, Accounted, Buffers;
    RunKeepsBooks(lay, base, run, labels, k);
  }

  /** No write waits for a commit unless a call is active or the commit is under way. */
  ghost predicate NothingWaits(s: State)
  {
    match s.phase
    case Running => s.active == [] ==> s.lh == [] && s.current == NoGroup
    case WritingLog(_) => true
    case WritingHead => true
    case Finishing => s.lh == [] && s.current == NoGroup
    case _ => s.current == NoGroup
  }

  lemma StepKeepsNothingWaits(lay: Layout, s: State, l: Label)
    requires Books(s) && NothingWaits(s) && CanStep(lay, s, l)
    ensures NothingWaits(Do(lay, s, l))
  {
    hide IdInv, Unspent, Buffers, WithHeader, Header, Read;
  }

  lemma {:induction false} RunKeepsNothingWaits(lay: Layout, base: Disk, run: seq<State>, labels: seq<Label>, k: nat)
    requires IsRun(lay, base, run, labels) && k < |run|
    ensures NothingWaits(run[k])
  {
    hide Books, Do, CanStep, NothingWaits;
    if k == 0 {
      InitWaits(lay, base, run[0]);
    } else {
      RunKeepsNothingWaits(lay, base, run, labels, k - 1);
      RunKeepsBooks(lay, base, run, labels, k - 1);
      assert Follows(lay, run, labels, k - 1);
      StepKeepsNothingWaits(lay, run[k - 1], labels[k - 1]);
    }
  }

  lemma InitWaits(lay: Layout, base: Disk, s: State)
    requires Init(lay, base, s)
    ensures NothingWaits(s)
  {
  }

  /** Whenever no call is active and no commit is running, every call that ever began is committed or was lost in a crash,
      the log is empty, and every home block on disk is its durable version. */
  lemma IdleIsDurable(lay: Layout, base: Disk, run: seq<State>, labels: seq<Label>, k: nat)
    requires IsRun(lay, base, run, labels) && k < |run| && run[k].phase == Running && run[k].active == []
    ensures run[k].lh == [] && run[k].current == NoGroup
    ensures forall id :: id in run[k].begun && id !in run[k].lost ==>
              exists g :: 0 <= g < |run[k].groups| && id in run[k].groups[g].calls
    ensures Ample(lay) ==> |run[k].disk| == |base| == lay.blocks && run[k].disk[lay.start][0] == 0
                           && forall b: nat :: lay.Home(b) ==> run[k].disk[b] == Durable(base, run[k].groups)[b]
  {
    hide CallInv, Durable, Do, CanStep, Logical, ApplyAll, Header, CacheInv, Init;
    RunKeepsNothingWaits(lay, base, run, labels, k);
    RunKeepsBooks(lay, base, run, labels, k);
    forall id | id in run[k].begun && id !in run[k].lost
      ensures exists g :: 0 <= g < |run[k].groups| && id in run[k].groups[g].calls
    {
      assert Accounted(run[k], id);
    }
    if Ample(lay) {
      RunKeepsAmple(lay, base, run, labels, k);
      hide Books;
      forall b: nat | lay.Home(b) ensures run[k].disk[b] == Durable(base, run[k].groups)[b] {
        NothingUncommittedAtHome(lay, base, run, labels, k, b);
      }
    }
  }

  /** A run may go on with any step that can happen. */
  lemma ExtendRun(lay: Layout, base: Disk, run: seq<State>, labels: seq<Label>, l: Label)
    requires IsRun(lay, base, run, labels) && CanStep(lay, run[|run| - 1], l)
    ensures IsRun(lay, base, run + [Do(lay, run[|run| - 1], l)], labels + [l])
  {
    hide Do, CanStep, Init;
    var run', labels' := run + [Do(lay, run[|run| - 1], l)], labels + [l];
    forall k | 0 <= k < |labels'| ensures Follows(lay, run', labels', k) {
      if k < |labels| {
        assert Follows(lay, run, labels, k);
      }
    }
  }
}
