/** Sleep locks (src/sleeplock.c) over sleep, wakeup and kill (src/proc.c), as a
    machine whose steps are the single accesses to shared state between two
    points where another CPU may run. Processes, the holder of the lock among
    them, also sleep on other channels, as iderw does. */
module SleepLock {

  import opened Common

  datatype RunState = RUNNING | RUNNABLE | SLEEPING

  /** Where a process is in acquiresleep, sleep, releasesleep, holdingsleep or kill.
      Each name says what the process does next. */
  datatype Pc =
    | Idle
    | AcqSpin      // acquire(&lk->lk)
    | AcqTest      // while (lk->locked)
    | AcqTake      // lk->locked = 1; lk->pid = myproc()->pid
    | AcqExit      // release(&lk->lk)
    | SlpTable     // sleep: acquire(&ptable.lock)
    | SlpUnlock    // release(lk)
    | SlpMark      // p->chan = chan; p->state = SLEEPING
    | SlpSched     // sched(): the scheduler lets go of ptable.lock
    | Asleep       // waiting to be picked by the scheduler
    | SlpTidy      // p->chan = 0
    | SlpUntable   // release(&ptable.lock)
    | SlpRelock    // acquire(lk)
    | Critical     // owns the sleep lock
    | HoldSpin     // holdingsleep: acquire(&lk->lk)
    | HoldTest     // r = lk->locked && lk->pid == myproc()->pid; release
    | RelSpin      // releasesleep: acquire(&lk->lk)
    | RelClear     // lk->locked = 0; lk->pid = 0
    | RelTable     // wakeup: acquire(&ptable.lock)
    | RelWake      // wakeup1(lk)
    | RelUntable   // release(&ptable.lock)
    | RelExit      // release(&lk->lk)
    | KillTable(victim: nat)   // kill: acquire(&ptable.lock)
    | KillMark(victim: nat)    // scan the table
    | KillUntable  // release(&ptable.lock)
    | WaitTable(on: nat)       // sleep on another channel: acquire(&ptable.lock)
    | WaitMark(on: nat)        // p->chan = chan; p->state = SLEEPING
    | WaitSched    // sched()
    | WaitAsleep   // waiting to be picked by the scheduler
    | WaitTidy     // p->chan = 0
    | WaitUntable  // release(&ptable.lock)
    | NoteTable(on: nat)       // wakeup of some channel: acquire(&ptable.lock)
    | NoteWake(on: nat)        // wakeup1
    | NoteUntable  // release(&ptable.lock)

  /** A slot of the process table; `chan` 0 is no channel. `owns` is the caller's own knowledge:
      whether it has taken the sleep lock and not given it back; `held` is the last result of holdingsleep. */
  datatype Proc = Proc(pid: nat, state: RunState, chan: nat, killed: bool, pc: Pc, owns: bool, held: bool)

  const LK: nat := 1 // the lock's address, used as the sleep channel

  // ---- The table scans, as code and as functions ---------------------------------------------

  function Woken(p: Proc, chan: nat): Proc
  {
    if p.state == SLEEPING && p.chan == chan then p.(state := RUNNABLE) else p
  }

  function Wake(table: seq<Proc>, chan: nat): (r: seq<Proc>)
    ensures |r| == |table|
  {
    seq(|table|, i requires 0 <= i < |table| => Woken(table[i], chan))
  }

  /** wakeup1 */
  method Wakeup1(table: array<Proc>, chan: nat)
    modifies table
    ensures table[..] == Wake(old(table[..]), chan)
    ensures forall k :: 0 <= k < table.Length ==>
              table[k] == if old(table[k]).state == SLEEPING && old(table[k]).chan == chan then old(table[k]).(state := RUNNABLE)
                          else old(table[k])
  {
    var i := 0;
    while i < table.Length
      invariant 0 <= i <= table.Length
      invariant forall k :: 0 <= k < i ==> table[k] == Woken(old(table[k]), chan)
      invariant forall k :: i <= k < table.Length ==> table[k] == old(table[k])
    {
      if table[i].state == SLEEPING && table[i].chan == chan {
        table[i] := table[i].(state := RUNNABLE);
      }
      i := i + 1;
    }
  }

  function Killed(p: Proc): Proc
  {
    p.(killed := true, state := if p.state == SLEEPING then RUNNABLE else p.state)
  }

  /** The first slot with that pid, or the table's length. */
  function FindPid(table: seq<Proc>, pid: nat): (i: nat)
    ensures i <= |table| && (i < |table| ==> table[i].pid == pid)
    ensures forall k :: 0 <= k < i ==> table[k].pid != pid
  {
    if table == [] || table[0].pid == pid then 0 else 1 + FindPid(table[1..], pid)
  }

  function Kill(table: seq<Proc>, pid: nat): (r: seq<Proc>)
    ensures |r| == |table|
  {
    var i := FindPid(table, pid);
    if i < |table| then table[i := Killed(table[i])] else table
  }

  /** What kill does to the first slot with that pid: it is marked, and runnable if it slept; nothing else changes. */
  ghost predicate Hit(before: seq<Proc>, after: seq<Proc>, pid: nat, i: nat)
    requires i < |before| == |after|
  {
    && before[i].pid == pid && (forall k :: 0 <= k < i ==> before[k].pid != pid)
    && after[i].killed && after[i].state == (if before[i].state == SLEEPING then RUNNABLE else before[i].state)
    && after[i].(killed := before[i].killed, state := before[i].state) == before[i]
    && forall k :: 0 <= k < |before| && k != i ==> after[k] == before[k]
  }

  /** kill, from taking ptable.lock to releasing it */
  method KillScan(table: array<Proc>, pid: nat) returns (result: int)
    modifies table
    ensures table[..] == Kill(old(table[..]), pid)
    ensures result == 0 <==> exists k :: 0 <= k < table.Length && old(table[k]).pid == pid
    ensures result == 0 || result == -1
    ensures result == -1 ==> table[..] == old(table[..])
    ensures result == 0 ==> exists i :: 0 <= i < table.Length && Hit(old(table[..]), table[..], pid, i)
  {
    var i := 0;
    while i < table.Length
      invariant 0 <= i <= table.Length && table[..] == old(table[..])
      invariant forall k :: 0 <= k < i ==> table[k].pid != pid
    {
      if table[i].pid == pid {
        assert FindPid(table[..], pid) == i;
        table[i] := table[i].(killed := true);
        if table[i].state == SLEEPING {
          table[i] := table[i].(state := RUNNABLE);
        }
        assert Hit(old(table[..]), table[..], pid, i);
        return 0;
      }
      i := i + 1;
    }
    return -1;
  }

  // ---- The machine ------------------------------------------------------------------------------

  datatype State = State(procs: seq<Proc>, locked: bool, owner: nat, spin: Option<nat>, table: Option<nat>)

  /** What an idle process, or one inside its critical section, chooses to do next. */
  datatype Choice = Acquire | Release | AskHolding | KillPid(victim: nat) | Wait(chan: nat) | Notify(chan: nat)

  ghost predicate Init(s: State)
  {
    && !s.locked && s.spin == None && s.table == None
    && (forall i :: 0 <= i < |s.procs| ==>
          s.procs[i].pid != 0 && s.procs[i].pc == Idle && s.procs[i].state == RUNNING && s.procs[i].chan == 0 && !s.procs[i].owns)
    && (forall i, j :: 0 <= i < j < |s.procs| ==> s.procs[i].pid != s.procs[j].pid)
  }

  predicate WantsSpin(pc: Pc) { pc.AcqSpin? || pc.SlpRelock? || pc.HoldSpin? || pc.RelSpin? }

  predicate WantsTable(pc: Pc) { pc.SlpTable? || pc.RelTable? || pc.KillTable? || pc.WaitTable? || pc.NoteTable? }

  predicate HoldsSpin(pc: Pc)
  {
    || pc.AcqTest? || pc.AcqTake? || pc.AcqExit? || pc.SlpTable? || pc.SlpUnlock? || pc.HoldTest?
    || pc.RelClear? || pc.RelTable? || pc.RelWake? || pc.RelUntable? || pc.RelExit?
  }

  predicate HoldsTable(pc: Pc)
  {
    || pc.SlpUnlock? || pc.SlpMark? || pc.SlpSched? || pc.SlpTidy? || pc.SlpUntable?
    || pc.RelWake? || pc.RelUntable? || pc.KillMark? || pc.KillUntable?
    || pc.WaitMark? || pc.WaitSched? || pc.WaitTidy? || pc.WaitUntable? || pc.NoteWake? || pc.NoteUntable?
  }

  /** Process i can take its next step. */
  predicate CanStep(s: State, i: nat)
    requires i < |s.procs|
  {
    var p := s.procs[i];
    && (WantsSpin(p.pc) ==> s.spin == None)
    && (WantsTable(p.pc) ==> s.table == None)
    && (p.pc == Asleep || p.pc == WaitAsleep ==> s.table == None && p.state == RUNNABLE)
  }

  /** Where the step leads; `choice` matters only in Idle and Critical. */
  function NextPc(pc: Pc, locked: bool, owns: bool, choice: Choice): Pc
  {
    match pc
    case Idle => if choice == Acquire then AcqSpin else if choice == AskHolding then HoldSpin
                 else if choice.KillPid? then KillTable(choice.victim) else Elsewhere(choice, Idle)
    case AcqSpin => AcqTest
    case AcqTest => if locked then SlpTable else AcqTake
    case AcqTake => AcqExit
    case AcqExit => Critical
    case SlpTable => SlpUnlock
    case SlpUnlock => SlpMark
    case SlpMark => SlpSched
    case SlpSched => Asleep
    case Asleep => SlpTidy
    case SlpTidy => SlpUntable
    case SlpUntable => SlpRelock
    case SlpRelock => AcqTest
    case Critical => if choice == Release then RelSpin else if choice == AskHolding then HoldSpin else Elsewhere(choice, Critical)
    case HoldSpin => HoldTest
    case HoldTest => if owns then Critical else Idle
    case RelSpin => RelClear
    case RelClear => RelTable
    case RelTable => RelWake
    case RelWake => RelUntable
    case RelUntable => RelExit
    case RelExit => Idle
    case KillTable(v) => KillMark(v)
    case KillMark(v) => KillUntable
    case KillUntable => Idle
    case WaitTable(c) => WaitMark(c)
    case WaitMark(c) => WaitSched
    case WaitSched => WaitAsleep
    case WaitAsleep => WaitTidy
    case WaitTidy => WaitUntable
    case WaitUntable => if owns then Critical else Idle
    case NoteTable(c) => NoteWake(c)
    case NoteWake(c) => NoteUntable
    case NoteUntable => if owns then Critical else Idle
  }

  /** Sleeping on a channel other than the lock, or waking some channel; otherwise nothing. */
  function Elsewhere(choice: Choice, pc: Pc): Pc
  {
    if choice.Wait? && choice.chan != LK && choice.chan != 0 then WaitTable(choice.chan)
    else if choice.Notify? then NoteTable(choice.chan) else pc
  }

  /** What the step does to the stepping process itself. */
  function Local(p: Proc, locked: bool, owner: nat, choice: Choice): Proc
  {
    p.(pc := NextPc(p.pc, locked, p.owns, choice),
       state := if p.pc.SlpMark? || p.pc.WaitMark? then SLEEPING
                else if p.pc.Asleep? || p.pc.WaitAsleep? then RUNNING else p.state,
       chan := if p.pc.SlpMark? then LK else if p.pc.WaitMark? then p.pc.on
               else if p.pc.SlpTidy? || p.pc.WaitTidy? then 0 else p.chan,
       owns := if p.pc.AcqTake? then true else if p.pc.RelClear? then false else p.owns,
       held := if p.pc.HoldTest? then locked && owner == p.pid else p.held)
  }

  predicate DropsSpin(pc: Pc) { pc.AcqExit? || pc.SlpUnlock? || pc.HoldTest? || pc.RelExit? }

  predicate TakesTable(pc: Pc) { WantsTable(pc) || pc.Asleep? || pc.WaitAsleep? }

  predicate DropsTable(pc: Pc)
  {
    pc.SlpSched? || pc.SlpUntable? || pc.RelUntable? || pc.KillUntable? || pc.WaitSched? || pc.WaitUntable? || pc.NoteUntable?
  }

  /** What the step does to the whole process table: the scans made under ptable.lock. */
  function Scan(procs: seq<Proc>, pc: Pc): (r: seq<Proc>)
    ensures |r| == |procs|
  {
    if pc.RelWake? then Wake(procs, LK) else if pc.NoteWake? then Wake(procs, pc.on)
    else if pc.KillMark? then Kill(procs, pc.victim) else procs
  }

  function Hand(lock: Option<nat>, i: nat, takes: bool, drops: bool): Option<nat>
  {
    if takes then Some(i) else if drops then None else lock
  }

  /** The step of process i. */
  function Do(s: State, i: nat, choice: Choice): (t: State)
    requires i < |s.procs| && CanStep(s, i)
    ensures |t.procs| == |s.procs|
  {
    var pc := s.procs[i].pc;
    var procs := Scan(s.procs, pc);
    State(procs[i := Local(procs[i], s.locked, s.owner, choice)],
          if pc.AcqTake? then true else if pc.RelClear? then false else s.locked,
          if pc.AcqTake? then s.procs[i].pid else if pc.RelClear? then 0 else s.owner,
          Hand(s.spin, i, WantsSpin(pc), DropsSpin(pc)),
          Hand(s.table, i, TakesTable(pc), DropsTable(pc)))
  }

  // ---- What every step keeps ----------------------------------------------------------------------

  /** About to sleep or asleep on the lock: such a process depends on a wakeup. */
  predicate Dormant(p: Proc) { p.pc == SlpMark || (p.state == SLEEPING && p.chan == LK) }

  /** Sleeping on another channel, or on the way there or back. */
  predicate Waits(pc: Pc)
  {
    pc.WaitTable? || pc.WaitMark? || pc.WaitSched? || pc.WaitAsleep? || pc.WaitTidy? || pc.WaitUntable?
  }

  /** Where an owner may be besides OwnsPc. */
  predicate MayOwn(pc: Pc) { pc.HoldSpin? || pc.HoldTest? || Waits(pc) || pc.NoteTable? || pc.NoteWake? || pc.NoteUntable? }

  /** A sleeper has marked itself for its channel and is in sched(), or off the processor. */
  predicate SleepOk(p: Proc)
  {
    && (p.state == SLEEPING ==>
       if p.chan == LK then p.pc == SlpSched || p.pc == Asleep else p.pc == WaitSched || p.pc == WaitAsleep)
    && (p.pc == SlpSched || p.pc == WaitSched ==> p.state == SLEEPING)
    && (p.pc == Asleep || p.pc == WaitAsleep ==> p.state != RUNNING)
    && (p.pc.WaitTable? || p.pc.WaitMark? ==> p.pc.on != LK)
  }

  /** A process for which the sleep lock was locked when it looked, and which still holds the spinlock. */
  predicate SawLocked(p: Proc) { p.pc == SlpTable || p.pc == SlpUnlock }

  /** Has cleared the lock and not yet run its wakeup. */
  predicate WillWake(p: Proc) { p.pc == RelTable || p.pc == RelWake }

  predicate OwnsPc(pc: Pc) { pc.AcqExit? || pc.Critical? || pc.RelSpin? || pc.RelClear? }

  ghost predicate ProcOk(s: State, i: nat)
    requires i < |s.procs|
  {
    var p := s.procs[i];
    && p.pid != 0
    && (HoldsSpin(p.pc) <==> s.spin == Some(i))
    && (HoldsTable(p.pc) <==> s.table == Some(i))
    && (OwnsPc(p.pc) ==> p.owns)
    && (p.owns ==> OwnsPc(p.pc) || MayOwn(p.pc))
    && (p.owns ==> s.locked && s.owner == p.pid)
    && (p.pc == AcqTake ==> !s.locked)
    && (SawLocked(p) ==> s.locked)
    && SleepOk(p)
  }

  /** Somebody who has cleared the lock still holds the spinlock and will call wakeup. */
  ghost predicate WakeupPending(s: State)
  {
    s.spin.Some? && s.spin.value < |s.procs| && WillWake(s.procs[s.spin.value])
  }

  ghost predicate Inv(s: State)
  {
    && (forall i :: 0 <= i < |s.procs| ==> ProcOk(s, i))
    && (forall i, j :: 0 <= i < j < |s.procs| ==> s.procs[i].pid != s.procs[j].pid)
    && (s.spin.Some? ==> s.spin.value < |s.procs|)
    && (s.table.Some? ==> s.table.value < |s.procs|)
    && (s.locked ==> exists i :: 0 <= i < |s.procs| && s.procs[i].owns)
    && (!s.locked ==> WakeupPending(s) || forall i :: 0 <= i < |s.procs| ==> !Dormant(s.procs[i]))
  }

  lemma InitInv(s: State)
    requires Init(s)
    ensures Inv(s)
  {
  }

  /** A process other than the stepping one is disturbed at most by being woken. */
  lemma OtherAfterStep(s: State, i: nat, choice: Choice, j: nat)
    requires Inv(s) && i < |s.procs| && CanStep(s, i) && j < |s.procs| && j != i
    ensures var p, p' := s.procs[j], Do(s, i, choice).procs[j];
            && p'.pid == p.pid && p'.pc == p.pc && p'.chan == p.chan && p'.owns == p.owns
            && (p'.state == p.state || (p.state == SLEEPING && p'.state == RUNNABLE))
            && (s.procs[i].pc == RelWake ==> p'.state != SLEEPING || p'.chan != LK)
  {
    assert ProcOk(s, j);
  }

  lemma OtherStaysOk(s: State, i: nat, choice: Choice, j: nat)
    requires Inv(s) && i < |s.procs| && CanStep(s, i) && j < |s.procs| && j != i
    ensures ProcOk(Do(s, i, choice), j)
  {
    OtherAfterStep(s, i, choice, j);
    assert ProcOk(s, i) && ProcOk(s, j);
  }

  /** What a step means for the two spinlocks. */
  lemma SpinAfter(pc: Pc, locked: bool, owns: bool, choice: Choice)
    ensures HoldsSpin(NextPc(pc, locked, owns, choice)) <==> WantsSpin(pc) || (HoldsSpin(pc) && !DropsSpin(pc))
  {
  }

  lemma TableAfter(pc: Pc, locked: bool, owns: bool, choice: Choice)
    ensures HoldsTable(NextPc(pc, locked, owns, choice))
       <==> TakesTable(pc) || (HoldsTable(pc) && !DropsTable(pc))
  {
  }

  /** How a process gets to the points that the invariant speaks of. */
  lemma LocalFacts(p: Proc, locked: bool, owner: nat, choice: Choice)
    ensures var p' := Local(p, locked, owner, choice);
            && p'.pid == p.pid
            && (SawLocked(p') ==> p.pc == SlpTable || (p.pc == AcqTest && locked))
            && (p'.pc == AcqTake ==> p.pc == AcqTest && !locked)
            && (p'.pc == SlpMark ==> p.pc == SlpUnlock)
            && (p.pc == RelClear || p.pc == RelTable ==> WillWake(p'))
  {
  }

  lemma LocalOwnership(p: Proc, locked: bool, owner: nat, choice: Choice)
    requires OwnsPc(p.pc) ==> p.owns
    requires p.owns ==> OwnsPc(p.pc) || MayOwn(p.pc)
    ensures var p' := Local(p, locked, owner, choice);
            && (OwnsPc(p'.pc) ==> p'.owns)
            && (p'.owns ==> OwnsPc(p'.pc) || MayOwn(p'.pc))
            && p'.owns == (p.pc.AcqTake? || (p.owns && !p.pc.RelClear?))
  {
  }

  lemma LocalSleep(p: Proc, locked: bool, owner: nat, choice: Choice)
    requires SleepOk(p) && (p.pc == Asleep || p.pc == WaitAsleep ==> p.state == RUNNABLE)
    ensures var p' := Local(p, locked, owner, choice);
            SleepOk(p') && (p'.state == SLEEPING && p'.chan == LK <==> p.pc == SlpMark || p.pc == SlpSched)
  {
  }

  /** The scans leave the scanning process alone, except that it may kill itself. */
  lemma SelfInScan(s: State, i: nat)
    requires Inv(s) && i < |s.procs|
    ensures var p, q := s.procs[i], Scan(s.procs, s.procs[i].pc)[i];
            q == p || q == p.(killed := true)
  {
    assert ProcOk(s, i);
  }

  lemma SelfStaysOk(s: State, i: nat, choice: Choice)
    requires Inv(s) && i < |s.procs| && CanStep(s, i)
    ensures ProcOk(Do(s, i, choice), i)
  {
    hide NextPc;
    var q := Scan(s.procs, s.procs[i].pc)[i];
    assert ProcOk(s, i);
    SelfInScan(s, i);
    SpinAfter(q.pc, s.locked, q.owns, choice);
    TableAfter(q.pc, s.locked, q.owns, choice);
    LocalFacts(q, s.locked, s.owner, choice);
    LocalOwnership(q, s.locked, s.owner, choice);
    LocalSleep(q, s.locked, s.owner, choice);
  }

  /** The lock is marked locked only while some process owns it. */
  lemma OwnerStays(s: State, i: nat, choice: Choice)
    requires Inv(s) && i < |s.procs| && CanStep(s, i) && Do(s, i, choice).locked
    ensures var t := Do(s, i, choice); exists k :: 0 <= k < |t.procs| && t.procs[k].owns
  {
    var t := Do(s, i, choice);
    assert ProcOk(s, i);
    if s.procs[i].pc == AcqTake {
      assert t.procs[i].owns;
    } else {
      var k :| 0 <= k < |s.procs| && s.procs[k].owns;
      if k != i {
        OtherAfterStep(s, i, choice, k);
      }
      assert t.procs[k].owns;
    }
  }

  /** Nobody but the stepping process becomes dormant, and its own wakeup leaves nobody dormant. */
  lemma OtherNotDormant(s: State, i: nat, choice: Choice, j: nat)
    requires Inv(s) && i < |s.procs| && CanStep(s, i) && j < |s.procs| && j != i
    requires !Dormant(s.procs[j]) || s.procs[i].pc == RelWake
    ensures !Dormant(Do(s, i, choice).procs[j])
  {
    hide NextPc, CanStep, Do;
    OtherAfterStep(s, i, choice, j);
    assert ProcOk(s, i) && ProcOk(s, j);
  }

  /** The stepping process goes to sleep on the lock only while it is locked. */
  lemma SelfNotDormant(s: State, i: nat, choice: Choice)
    requires Inv(s) && i < |s.procs| && CanStep(s, i) && !Do(s, i, choice).locked
    requires Dormant(s.procs[i]) ==> s.procs[i].pc == RelWake
    ensures !Dormant(Do(s, i, choice).procs[i])
  {
    hide NextPc;
    assert ProcOk(s, i);
    SelfInScan(s, i);
    var q := Scan(s.procs, s.procs[i].pc)[i];
    LocalFacts(q, s.locked, s.owner, choice);
    LocalSleep(q, s.locked, s.owner, choice);
  }

  /** Clearing the lock, and taking ptable.lock for the wakeup, leaves the wakeup pending; only the wakeup itself ends that. */
  lemma PendingStays(s: State, i: nat, choice: Choice)
    requires Inv(s) && i < |s.procs| && CanStep(s, i) && !Do(s, i, choice).locked
    ensures s.locked || (WakeupPending(s) && s.procs[i].pc != RelWake) ==> WakeupPending(Do(s, i, choice))
  {
    hide NextPc;
    assert ProcOk(s, i);
    SelfInScan(s, i);
    LocalFacts(Scan(s.procs, s.procs[i].pc)[i], s.locked, s.owner, choice);
    if WakeupPending(s) {
      var w := s.spin.value;
      assert ProcOk(s, w);
      if w != i {
        OtherAfterStep(s, i, choice, w);
      }
    }
  }

  /** Nobody is left dormant once the lock is clear and the wakeup has run. */
  lemma WakeupsStayPending(s: State, i: nat, choice: Choice)
    requires Inv(s) && i < |s.procs| && CanStep(s, i) && !Do(s, i, choice).locked
    ensures var t := Do(s, i, choice);
            WakeupPending(t) || forall j :: 0 <= j < |t.procs| ==> !Dormant(t.procs[j])
  {
    hide Do, ProcOk, Dormant, CanStep;
    PendingStays(s, i, choice);
    var t := Do(s, i, choice);
    if !WakeupPending(t) {
      forall j | 0 <= j < |t.procs| ensures !Dormant(t.procs[j]) {
        if j == i {
          SelfNotDormant(s, i, choice);
        } else {
          OtherNotDormant(s, i, choice, j);
        }
      }
    }
  }

  lemma StepKeepsInv(s: State, i: nat, choice: Choice)
    requires Inv(s) && i < |s.procs| && CanStep(s, i)
    ensures Inv(Do(s, i, choice))
  {
    hide NextPc, ProcOk, Dormant;
    var t := Do(s, i, choice);
    SelfStaysOk(s, i, choice);
    SelfInScan(s, i);
    LocalFacts(Scan(s.procs, s.procs[i].pc)[i], s.locked, s.owner, choice);
    forall j | 0 <= j < |t.procs| ensures ProcOk(t, j) && t.procs[j].pid == s.procs[j].pid {
      if j != i {
        OtherStaysOk(s, i, choice, j);
        OtherAfterStep(s, i, choice, j);
      }
    }
    if t.locked {
      OwnerStays(s, i, choice);
    } else {
      WakeupsStayPending(s, i, choice);
    }
  }

  // ---- Every interleaving ---------------------------------------------------------------------------

  datatype Act = Act(proc: nat, choice: Choice)

  // ---- Who is woken, and who is killed --------------------------------------------------------------------------

  lemma WakeAt(table: seq<Proc>, chan: nat, k: nat)
    requires k < |table|
    ensures Wake(table, chan)[k].killed == table[k].killed
    ensures Wake(table, chan)[k].state == if table[k].state == SLEEPING && table[k].chan == chan then RUNNABLE else table[k].state
  {
  }

  lemma KillAt(table: seq<Proc>, pid: nat, k: nat)
    requires k < |table| && forall i, j :: 0 <= i < j < |table| ==> table[i].pid != table[j].pid
    ensures Kill(table, pid)[k].killed == (table[k].killed || table[k].pid == pid)
    ensures Kill(table, pid)[k].state == if table[k].state == SLEEPING && table[k].pid == pid then RUNNABLE else table[k].state
    ensures Kill(table, pid)[k].pc == table[k].pc && Kill(table, pid)[k].pid == table[k].pid
  {
  }

  /** A sleeper other than the stepping process is woken exactly by a wakeup of its channel and by a kill of its pid. */
  lemma WokenIff(s: State, i: nat, choice: Choice, j: nat)
    requires Inv(s) && i < |s.procs| && CanStep(s, i) && j < |s.procs| && j != i && s.procs[j].state == SLEEPING
    ensures var pc, p, p' := s.procs[i].pc, s.procs[j], Do(s, i, choice).procs[j];
            && (p'.state == SLEEPING || p'.state == RUNNABLE)
            && (p'.state == RUNNABLE <==> || (pc.RelWake? && p.chan == LK) || (pc.NoteWake? && p.chan == pc.on)
                                          || (pc.KillMark? && p.pid == pc.victim))
  {
    hide ProcOk, Dormant, Wake, Kill;
    var pc := s.procs[i].pc;
    if pc.RelWake? {
      WakeAt(s.procs, LK, j);
    } else if pc.NoteWake? {
      WakeAt(s.procs, pc.on, j);
    } else if pc.KillMark? {
      KillAt(s.procs, pc.victim, j);
    }
  }

  /** A process is marked as killed exactly by a kill of its pid, and then it is not asleep. */
  lemma KilledIff(s: State, i: nat, choice: Choice, j: nat)
    requires Inv(s) && i < |s.procs| && CanStep(s, i) && j < |s.procs|
    ensures var pc, p, p' := s.procs[i].pc, s.procs[j], Do(s, i, choice).procs[j];
            && (p'.killed <==> p.killed || (pc.KillMark? && p.pid == pc.victim))
            && (pc.KillMark? && p.pid == pc.victim ==> p'.state != SLEEPING)
  {
    hide ProcOk, Dormant, Wake, Kill, NextPc;
    var pc := s.procs[i].pc;
    if pc.RelWake? {
      WakeAt(s.procs, LK, j);
    } else if pc.NoteWake? {
      WakeAt(s.procs, pc.on, j);
    } else if pc.KillMark? {
      KillAt(s.procs, pc.victim, j);
    }
  }

  /** sleep: the process sleeps on its channel, and has none once it runs again. */
  lemma SleepsOnChannel(s: State, i: nat, choice: Choice)
    requires i < |s.procs| && CanStep(s, i)
    ensures var pc, p' := s.procs[i].pc, Do(s, i, choice).procs[i];
            && (pc.SlpMark? ==> p'.state == SLEEPING && p'.chan == LK)
            && (pc.WaitMark? ==> p'.state == SLEEPING && p'.chan == pc.on)
            && (pc.Asleep? || pc.WaitAsleep? ==> s.procs[i].state == RUNNABLE && p'.state == RUNNING)
            && (pc.SlpTidy? || pc.WaitTidy? ==> p'.chan == 0)
  {
  }

  ghost predicate IsRun(run: seq<State>, acts: seq<Act>)
  {
    && |run| == |acts| + 1 && Init(run[0])
    && forall k :: 0 <= k < |acts| ==>
         acts[k].proc < |run[k].procs| && CanStep(run[k], acts[k].proc) && run[k + 1] == Do(run[k], acts[k].proc, acts[k].choice)
  }

  lemma {:induction false} RunKeepsInv(run: seq<State>, acts: seq<Act>, k: nat)
    requires IsRun(run, acts) && k < |run|
    ensures Inv(run[k])
  {
    hide Inv, Do;
    if k == 0 {
      InitInv(run[0]);
    } else {
      RunKeepsInv(run, acts, k - 1);
      StepKeepsInv(run[k - 1], acts[k - 1].proc, acts[k - 1].choice);
    }
  }

  /** In every interleaving at most one process owns the sleep lock, and it is the one the lock names. */
  lemma MutualExclusion(run: seq<State>, acts: seq<Act>, k: nat, i: nat, j: nat)
    requires IsRun(run, acts) && k < |run|
    requires i < |run[k].procs| && j < |run[k].procs| && run[k].procs[i].owns && run[k].procs[j].owns
    ensures i == j && run[k].locked && run[k].owner == run[k].procs[i].pid
  {
    RunKeepsInv(run, acts, k);
    assert ProcOk(run[k], i) && ProcOk(run[k], j);
  }

  /** In every interleaving, whenever the lock is free and its spinlock is not held, nobody sleeps on
      it, however the sleepers were woken. */
  lemma NoLostWakeup(run: seq<State>, acts: seq<Act>, k: nat, i: nat)
    requires IsRun(run, acts) && k < |run| && i < |run[k].procs|
    requires !run[k].locked && run[k].spin == None
    ensures run[k].procs[i].state != SLEEPING || run[k].procs[i].chan != LK
  {
    RunKeepsInv(run, acts, k);
  }

  /** The lock names exactly its owner. */
  lemma LockNamesOwner(s: State, i: nat)
    requires Inv(s) && i < |s.procs|
    ensures s.locked && s.owner == s.procs[i].pid <==> s.procs[i].owns
  {
    assert ProcOk(s, i);
    if s.locked && s.owner == s.procs[i].pid {
      var j :| 0 <= j < |s.procs| && s.procs[j].owns;
      assert ProcOk(s, j);
    }
  }

  /** holdingsleep answers true exactly to the owner. */
  lemma HoldingSleepIsExact(run: seq<State>, acts: seq<Act>, k: nat)
    requires IsRun(run, acts) && k < |acts| && run[k].procs[acts[k].proc].pc == HoldTest
    ensures run[k + 1].procs[acts[k].proc].held == run[k].procs[acts[k].proc].owns
  {
    hide Inv, NextPc;
    RunKeepsInv(run, acts, k);
    LockNamesOwner(run[k], acts[k].proc);
  }

  /** Sleeps on another channel. */
  predicate Waiting(p: Proc) { p.pc == WaitAsleep && p.state == SLEEPING }

  /** Whoever holds ptable.lock can step, and so can whoever holds the lock's spinlock once nobody does. */
  lemma HolderCanStep(s: State, j: nat)
    requires j < |s.procs| && ProcOk(s, j) && (s.table == Some(j) || (s.table == None && s.spin == Some(j)))
    ensures s.procs[j].pc != Idle && CanStep(s, j)
  {
  }

  /** With both free, a process can step unless it sleeps. */
  lemma FreeCanStep(s: State, j: nat)
    requires j < |s.procs| && ProcOk(s, j) && s.table == None && s.spin == None
    ensures CanStep(s, j) || Waiting(s.procs[j])
            || (s.procs[j].pc == Asleep && s.procs[j].state == SLEEPING && s.procs[j].chan == LK)
    ensures s.procs[j].owns ==> s.procs[j].pc != Idle && s.procs[j].pc != Asleep
  {
  }

  /** A process that sleeps on the lock while nobody holds a spinlock sleeps on a locked lock, so somebody owns it. */
  lemma SleeperHasOwner(s: State, i: nat) returns (j: nat)
    requires Inv(s) && i < |s.procs| && s.spin == None && s.procs[i].state == SLEEPING && s.procs[i].chan == LK
    ensures j < |s.procs| && s.procs[j].owns && ProcOk(s, j)
  {
    hide ProcOk;
    assert Dormant(s.procs[i]);
    j :| 0 <= j < |s.procs| && s.procs[j].owns;
    assert ProcOk(s, j);
  }

  /** No interleaving deadlocks: if some process is in the middle of an operation, some such process can move, unless
      that one, or the owner of the lock it sleeps on, waits for another channel. */
  lemma NoDeadlock(run: seq<State>, acts: seq<Act>, k: nat, i: nat)
    requires IsRun(run, acts) && k < |run| && i < |run[k].procs| && run[k].procs[i].pc != Idle
    ensures || (exists j :: 0 <= j < |run[k].procs| && run[k].procs[j].pc != Idle && CanStep(run[k], j))
            || Waiting(run[k].procs[i])
            || exists j :: 0 <= j < |run[k].procs| && run[k].procs[j].owns && Waiting(run[k].procs[j])
  {
    hide IsRun, CanStep, ProcOk;
    RunKeepsInv(run, acts, k);
    var s := run[k];
    if s.table.Some? {
      HolderCanStep(s, s.table.value);
    } else if s.spin.Some? {
      HolderCanStep(s, s.spin.value);
    } else {
      FreeCanStep(s, i);
      if !CanStep(s, i) && !Waiting(s.procs[i]) {
        var j := SleeperHasOwner(s, i);
        FreeCanStep(s, j);
      }
    }
  }
}
