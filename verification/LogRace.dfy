/** log_write tests its guard before it takes the lock (src/log.c:218-223). What that means for a log area of a given size and a
    cache of a given number of buffers: when a call within its budget meets the panic, and when two calls that pass the guard
    together overrun the area. */
module LogRace {
  import opened Common
  import opened LogDisk
  import opened GroupCommit

  // ---- Large log areas ------------------------------------------------------------------------------------------

  /** log_write panics although the caller is within its budget. */
  ghost predicate PanicsInBudget(lay: Layout, s: State, i: nat)
  {
    i < |s.active| && !s.active[i].checked && s.active[i].spent < MAXOPBLOCKS && TooBig(lay, s.lh)
  }

  /** A larger log than LOGSIZE blocks: no call within its budget ever meets the panic. */
  lemma BigLogNeverPanics(lay: Layout, base: Disk, run: seq<State>, labels: seq<Label>, k: nat, i: nat)
    requires IsRun(lay, base, run, labels) && k < |run| && lay.size > LOGSIZE
    ensures !PanicsInBudget(lay, run[k], i)
  {
    if i < |run[k].active| {
      LogSpaceSuffices(lay, base, run, labels, k, i);
    }
  }

  // ---- Three calls fill the log -----------------------------------------------------------------------------------

  /** The blocks after the log area, in order. */
  function After(lay: Layout, n: nat): seq<nat> { seq<nat>(n, k => lay.start + lay.size + k) }

  /** How many of n blocks each of three calls has logged, so that two of them keep a slot for as long as possible. */
  function Share(n: nat, j: nat): nat
  {
    if j == 0 then (if n < 10 then n else 10) else if j == 1 then (if n < 10 then 0 else if n < 19 then n - 10 else 9)
    else (if n < 19 then 0 else n - 19)
  }

  function Turn(n: nat): nat { if n < 10 then 0 else if n < 19 then 1 else 2 }

  /** Nobody holds or edits a buffer. */
  ghost predicate Idle(s: State) { forall b :: b in s.cache ==> s.cache[b].holder == None && !s.cache[b].edited }

  /** The buffers in use are those of the logged blocks. */
  ghost predicate Pins(s: State) { AllDirty(s) && Busy(s) <= Names(s.lh) }

  lemma PinsCount(s: State)
    requires Pins(s)
    ensures |Busy(s)| <= |s.lh|
  {
    NamesCount(s.lh);
    SubsetSize(Busy(s), Names(s.lh));
  }

  ghost predicate Open(lay: Layout, base: Disk, s: State, n: nat)
  {
    && s.phase == Running && !s.committing && s.outstanding == 3 && s.begun == {0, 1, 2} && s.groups == []
    && s.disk == base && |base| == lay.blocks && s.lh == After(lay, n)
       && forall b :: b in s.cache ==> b < lay.start + lay.size + n
  }

  /** Three calls that have together logged the n blocks after the log area. */
  ghost predicate Filled(lay: Layout, base: Disk, s: State, n: nat)
  {
    && Open(lay, base, s, n) && Idle(s) && Pins(s)
    && s.active == [Call(0, Share(n, 0), false), Call(1, Share(n, 1), false), Call(2, Share(n, 2), false)]
  }

  /** The state after call j has read, logged and released block b without changing it. */
  ghost function Logged(s: State, j: nat, b: nat): State
    requires j < |s.active| && b < |s.disk|
  {
    s.(lh := s.lh + [b], active := s.active[j := Call(s.active[j].id, s.active[j].spent + 1, false)],
       cache := s.cache[b := Buf(s.disk[b], true, None, false)],
       current := Group(s.current.calls, s.current.writes + [Write(s.active[j].id, b, s.disk[b])]))
  }

  ghost function Has(s: State, who: nat, b: nat): State
    requires b < |s.disk|
  {
    s.(cache := s.cache[b := Buf(s.disk[b], false, Some(who), false)])
  }

  lemma ReadOne(lay: Layout, s: State, j: nat, b: nat)
    requires s.phase == Running && lay.Home(b) && b < |s.disk| && b !in s.cache && j < |s.active| && |Busy(s)| < lay.nbuf
    requires forall i :: 0 <= i < |s.active| ==> !s.active[i].checked
    ensures CanStep(lay, s, Bread(s.active[j].id, b)) && Do(lay, s, Bread(s.active[j].id, b)) == Has(s, s.active[j].id, b)
  {
    assert Busy(s) + {} == Busy(s);
  }

  /** The call is past the guard of log_write; then the block is in the log; then it is released. */
  ghost function Past(s: State, j: nat): State
    requires j < |s.active|
  {
    s.(active := s.active[j := s.active[j].(checked := true)])
  }

  lemma WriteOne(lay: Layout, s: State, j: nat, b: nat)
    requires j < |s.active| && b < |s.disk| && b !in s.cache && b !in s.lh && !TooBig(lay, s.lh)
             && s.active[j].spent < MAXOPBLOCKS
    requires forall i :: 0 <= i < |s.active| ==> !s.active[i].checked
    ensures var t := Has(s, s.active[j].id, b);
            && CanStep(lay, t, LogCheck(j)) && Do(lay, t, LogCheck(j)) == Past(t, j) && CanStep(lay, Past(t, j), LogAppend(j, b))
            && CanStep(lay, Do(lay, Past(t, j), LogAppend(j, b)), Brelse(s.active[j].id, b))
            && Do(lay, Do(lay, Past(t, j), LogAppend(j, b)), Brelse(s.active[j].id, b)) == Logged(s, j, b)
  {
    hide Gets, Copies, Commit;
    var v := Do(lay, Past(Has(s, s.active[j].id, b), j), LogAppend(j, b));
    var w := Do(lay, v, Brelse(s.active[j].id, b));
    assert w.cache == Logged(s, j, b).cache;
    assert w.active == Logged(s, j, b).active;
  }

  lemma {:induction false} FillOne(lay: Layout, base: Disk, run: seq<State>, labels: seq<Label>, j: nat, b: nat)
    returns (run': seq<State>, labels': seq<Label>)
    requires IsRun(lay, base, run, labels)
    requires var s := run[|run| - 1];
             && j < |s.active| && lay.Home(b) && b < |s.disk| && b !in s.cache && b !in s.lh && !TooBig(lay, s.lh)
             && s.active[j].spent < MAXOPBLOCKS && s.phase == Running && |Busy(s)| < lay.nbuf
             && forall i :: 0 <= i < |s.active| ==> !s.active[i].checked
    ensures |run'| > 0 && IsRun(lay, base, run', labels') && run'[|run'| - 1] == Logged(run[|run| - 1], j, b)
  {
    var s := run[|run| - 1];
    var id := s.active[j].id;
    ReadOne(lay, s, j, b);
    WriteOne(lay, s, j, b);
    hide Do, CanStep, IsRun, Has, Logged, Past, Busy;
    var t := Has(s, id, b);
    var u := Past(t, j);
    var v := Do(lay, u, LogAppend(j, b));
    ExtendRun(lay, base, run, labels, Bread(id, b));
    run', labels' := run + [t], labels + [Bread(id, b)];
    ExtendRun(lay, base, run', labels', LogCheck(j));
    run', labels' := run' + [u], labels' + [LogCheck(j)];
    ExtendRun(lay, base, run', labels', LogAppend(j, b));
    run', labels' := run' + [v], labels' + [LogAppend(j, b)];
    ExtendRun(lay, base, run', labels', Brelse(id, b));
    run', labels' := run' + [Logged(s, j, b)], labels' + [Brelse(id, b)];
  }

  lemma PinsLogged(s: State, j: nat, b: nat)
    requires j < |s.active| && b < |s.disk| && Pins(s)
    ensures Pins(Logged(s, j, b))
  {
    var t := Logged(s, j, b);
    assert t.lh[|s.lh|] == b;
    forall c | c in Busy(t) ensures c in Names(t.lh) {
      if c != b {
        assert c in Busy(s) && c in Names(s.lh);
      }
    }
  }

  lemma FilledNext(lay: Layout, base: Disk, s: State, n: nat)
    requires Filled(lay, base, s, n) && n < 28 && lay.start + lay.size + n < lay.blocks
    ensures Filled(lay, base, Logged(s, Turn(n), lay.start + lay.size + n), n + 1)
  {
    var b := lay.start + lay.size + n;
    var t := Logged(s, Turn(n), b);
    PinsLogged(s, Turn(n), b);
    hide Pins;
    assert t.lh == After(lay, n + 1);
    assert t.active == [Call(0, Share(n + 1, 0), false), Call(1, Share(n + 1, 1), false), Call(2, Share(n + 1, 2), false)];
  }

  lemma ThreeCalls(lay: Layout, base: Disk) returns (run: seq<State>, labels: seq<Label>)
    requires lay.Valid() && DiskOk(lay, base) && base[lay.start][0] == 0
    ensures |run| > 0 && IsRun(lay, base, run, labels) && Filled(lay, base, run[|run| - 1], 0)
  {
    var s0 := State(base, map[], [], 0, false, Running, [], {}, NoGroup, [], {});
    var s1 := Do(lay, s0, Begin(0));
    var s2 := Do(lay, s1, Begin(1));
    var s3 := Do(lay, s2, Begin(2));
    run, labels := [s0], [];
    ExtendRun(lay, base, run, labels, Begin(0));
    run, labels := run + [s1], labels + [Begin(0)];
    ExtendRun(lay, base, run, labels, Begin(1));
    run, labels := run + [s2], labels + [Begin(1)];
    ExtendRun(lay, base, run, labels, Begin(2));
    run, labels := run + [s3], labels + [Begin(2)];
    assert s3.lh == After(lay, 0);
  }

  lemma {:induction false} Fill(lay: Layout, base: Disk, n: nat) returns (run: seq<State>, labels: seq<Label>)
    requires lay.Valid() && DiskOk(lay, base) && base[lay.start][0] == 0
    requires n <= lay.size - 1 && n <= 28 && n <= lay.nbuf && lay.start + lay.size + LOGSIZE <= lay.blocks
    ensures |run| > 0 && IsRun(lay, base, run, labels) && Filled(lay, base, run[|run| - 1], n)
  {
    hide Do, CanStep, IsRun, Logged, Pins;
    if n == 0 {
      run, labels := ThreeCalls(lay, base);
    } else {
      run, labels := Fill(lay, base, n - 1);
      var b := lay.start + lay.size + (n - 1);
      assert b !in After(lay, n - 1);
      FilledNext(lay, base, run[|run| - 1], n - 1);
      PinsCount(run[|run| - 1]);
      run, labels := FillOne(lay, base, run, labels, Turn(n - 1), b);
    }
  }

  // ---- Two calls past the guard together --------------------------------------------------------------------------------

  /** Calls 1 and 2 have both passed the guard, each with a block of its own, of which call 2 has changed its own to x. */
  ghost function Racing(s: State, b: nat, x: Block): State
    requires |s.active| == 3 && b + 1 < |s.disk|
  {
    s.(cache := s.cache[b := Buf(s.disk[b], false, Some(1), false)][b + 1 := Buf(x, false, Some(2), true)],
       active := [s.active[0], s.active[1].(checked := true), s.active[2].(checked := true)])
  }

  /** Both have appended and released. */
  ghost function Raced(s: State, b: nat, x: Block): State
    requires |s.active| == 3 && b + 1 < |s.disk|
  {
    s.(lh := s.lh + [b, b + 1],
       cache := s.cache[b := Buf(s.disk[b], true, None, false)][b + 1 := Buf(x, true, None, false)],
       active := [s.active[0], Call(1, s.active[1].spent + 1, false), Call(2, s.active[2].spent + 1, false)],
       current := Group(s.current.calls, s.current.writes + [Write(1, b, s.disk[b]), Write(2, b + 1, x)]))
  }

  /** A state from which the race can start. */
  ghost predicate Start(lay: Layout, s: State, b: nat)
  {
    && s.phase == Running && |s.active| == 3 && lay.Home(b) && lay.Home(b + 1) && b + 1 < |s.disk|
    && s.active[0] == Call(0, s.active[0].spent, false)
    && s.active[1] == Call(1, s.active[1].spent, false) && s.active[1].spent < MAXOPBLOCKS
    && s.active[2] == Call(2, s.active[2].spent, false) && s.active[2].spent < MAXOPBLOCKS
    && b !in s.cache && b + 1 !in s.cache && b !in s.lh && b + 1 !in s.lh && !TooBig(lay, s.lh) && |Busy(s)| + 1 < lay.nbuf
  }

  lemma HasBusy(s: State, who: nat, b: nat)
    requires b < |s.disk|
    ensures Busy(Has(s, who, b)) == Busy(s) + {b}
  {
  }

  lemma RaceReads(lay: Layout, s: State, b: nat, x: Block)
    requires Start(lay, s, b)
    ensures var t := Has(s, 1, b); var u := Has(t, 2, b + 1);
            && CanStep(lay, s, Bread(1, b)) && Do(lay, s, Bread(1, b)) == t
            && CanStep(lay, t, Bread(2, b + 1)) && Do(lay, t, Bread(2, b + 1)) == u
            && CanStep(lay, u, Edit(2, b + 1, x))
  {
    HasBusy(s, 1, b);
    hide Busy, Gets, Copies;
    ReadOne(lay, s, 1, b);
    ReadOne(lay, Has(s, 1, b), 2, b + 1);
  }

  lemma RaceChecks(lay: Layout, s: State, b: nat, x: Block)
    requires Start(lay, s, b)
    ensures var u := Has(Has(s, 1, b), 2, b + 1);
            CanStep(lay, u, Edit(2, b + 1, x)) && var v := Do(lay, u, Edit(2, b + 1, x));
            && CanStep(lay, v, LogCheck(1)) && CanStep(lay, Do(lay, v, LogCheck(1)), LogCheck(2))
            && Do(lay, Do(lay, v, LogCheck(1)), LogCheck(2)) == Racing(s, b, x)
  {
    hide Gets, Copies, Commit, Busy;
    var v := Do(lay, Has(Has(s, 1, b), 2, b + 1), Edit(2, b + 1, x));
    var w := Do(lay, Do(lay, v, LogCheck(1)), LogCheck(2));
    assert w.cache == Racing(s, b, x).cache;
    assert w.active == Racing(s, b, x).active;
  }

  ghost function AfterAppends(s: State, b: nat, x: Block): State
    requires |s.active| == 3 && b + 1 < |s.disk|
  {
    Raced(s, b, x).(cache := s.cache[b := Buf(s.disk[b], true, Some(1), false)][b + 1 := Buf(x, true, Some(2), false)])
  }

  lemma RaceAppends(lay: Layout, s: State, b: nat, x: Block)
    requires Start(lay, s, b)
    ensures var t := Racing(s, b, x);
            && CanStep(lay, t, LogAppend(1, b)) && CanStep(lay, Do(lay, t, LogAppend(1, b)), LogAppend(2, b + 1))
            && Do(lay, Do(lay, t, LogAppend(1, b)), LogAppend(2, b + 1)) == AfterAppends(s, b, x)
  {
    hide Gets, Copies, Commit, Busy;
    var u := Do(lay, Do(lay, Racing(s, b, x), LogAppend(1, b)), LogAppend(2, b + 1));
    assert u.cache == AfterAppends(s, b, x).cache;
    assert u.active == AfterAppends(s, b, x).active;
    assert u.current.writes == AfterAppends(s, b, x).current.writes;
  }

  lemma RaceReleases(lay: Layout, s: State, b: nat, x: Block)
    requires Start(lay, s, b)
    ensures var t := AfterAppends(s, b, x);
            && CanStep(lay, t, Brelse(1, b)) && CanStep(lay, Do(lay, t, Brelse(1, b)), Brelse(2, b + 1))
            && Do(lay, Do(lay, t, Brelse(1, b)), Brelse(2, b + 1)) == Raced(s, b, x)
  {
    hide Gets, Copies, Commit, Busy;
    assert Do(lay, Do(lay, AfterAppends(s, b, x), Brelse(1, b)), Brelse(2, b + 1)).cache == Raced(s, b, x).cache;
  }

  /** The run goes on with one step. */
  lemma Go(lay: Layout, base: Disk, run: seq<State>, labels: seq<Label>, l: Label) returns (run': seq<State>, labels': seq<Label>)
    requires |run| > 0 && IsRun(lay, base, run, labels) && CanStep(lay, run[|run| - 1], l)
    ensures IsRun(lay, base, run', labels') && |run'| > 0 && run'[|run'| - 1] == Do(lay, run[|run| - 1], l)
  {
    hide Do, CanStep, IsRun;
    ExtendRun(lay, base, run, labels, l);
    run', labels' := run + [Do(lay, run[|run| - 1], l)], labels + [l];
  }

  lemma Race(lay: Layout, base: Disk, run: seq<State>, labels: seq<Label>, b: nat, x: Block)
    returns (run': seq<State>, labels': seq<Label>)
    requires IsRun(lay, base, run, labels) && Start(lay, run[|run| - 1], b)
    ensures |run'| > 0 && IsRun(lay, base, run', labels') && run'[|run'| - 1] == Raced(run[|run| - 1], b, x)
  {
    var s := run[|run| - 1];
    RaceReads(lay, s, b, x);
    RaceChecks(lay, s, b, x);
    RaceAppends(lay, s, b, x);
    RaceReleases(lay, s, b, x);
    hide Do, CanStep, IsRun, Has, Racing, Raced, AfterAppends;
    run', labels' := Go(lay, base, run, labels, Bread(1, b));
    run', labels' := Go(lay, base, run', labels', Bread(2, b + 1));
    run', labels' := Go(lay, base, run', labels', Edit(2, b + 1, x));
    run', labels' := Go(lay, base, run', labels', LogCheck(1));
    run', labels' := Go(lay, base, run', labels', LogCheck(2));
    run', labels' := Go(lay, base, run', labels', LogAppend(1, b));
    run', labels' := Go(lay, base, run', labels', LogAppend(2, b + 1));
    run', labels' := Go(lay, base, run', labels', Brelse(1, b));
    run', labels' := Go(lay, base, run', labels', Brelse(2, b + 1));
  }

  // ---- The commit that follows -------------------------------------------------------------------------------------------

  /** commit copies more blocks into the log than there is room for, and is at block `tail`; the last one has data x. */
  ghost predicate Overrun(lay: Layout, base: Disk, s: State, x: Block, tail: nat)
  {
    && s.groups == [] && s.lh == After(lay, lay.size) && tail < lay.size && s.phase == WritingLog(tail)
    && lay.start < |s.disk| == |base| == lay.blocks && s.disk[lay.start] == base[lay.start] && Idle(s) && Pins(s)
    && var last := lay.start + lay.size + (lay.size - 1); last in s.cache && s.cache[last].data == x
  }

  /** All calls have ended, and commit begins. */
  ghost function Closed(s: State): State { s.(outstanding := 0, active := [], committing := true, phase := WritingLog(0)) }

  lemma EndOne(lay: Layout, s: State)
    requires s.outstanding == |s.active| > 0 && !s.active[0].checked && !s.committing && Idle(s) && s.lh != []
    ensures CanStep(lay, s, End(0))
    ensures Do(lay, s, End(0)) ==
            if |s.active| == 1 then Closed(s) else s.(outstanding := s.outstanding - 1, active := s.active[1..])
  {
    assert s.active[..0] + s.active[1..] == s.active[1..];
  }

  lemma {:induction false} EndAll(lay: Layout, base: Disk, run: seq<State>, labels: seq<Label>)
    returns (run': seq<State>, labels': seq<Label>)
    requires |run| > 0 && IsRun(lay, base, run, labels)
    requires var s := run[|run| - 1];
             && s.outstanding == |s.active| > 0 && !s.committing && Idle(s) && s.lh != []
             && forall i :: 0 <= i < |s.active| ==> !s.active[i].checked
    ensures |run'| > 0 && IsRun(lay, base, run', labels') && run'[|run'| - 1] == Closed(run[|run| - 1])
    decreases |run[|run| - 1].active|
  {
    hide Do, CanStep, IsRun;
    EndOne(lay, run[|run| - 1]);
    run', labels' := Go(lay, base, run, labels, End(0));
    if |run[|run| - 1].active| > 1 {
      run', labels' := EndAll(lay, base, run', labels');
    }
  }

  lemma CopyBuffers(lay: Layout, s: State, tail: nat)
    requires Pins(s) && tail < |s.lh| < lay.nbuf
    ensures Copies(lay, s, tail)
  {
    PinsCount(s);
    assert Busy(s) + {} == Busy(s) && s.lh[tail] in Busy(s);
  }

  /** Writing a block that is not logged. */
  lemma PinsWritten(s: State, b: nat, data: Block)
    requires Pins(s) && b < |s.disk| && b !in s.lh
    ensures Pins(Written(s, b, data))
  {
    assert Busy(Written(s, b, data)) <= Busy(s);
  }

  lemma CopyOne(lay: Layout, base: Disk, s: State, x: Block, tail: nat)
    requires Overrun(lay, base, s, x, tail) && 1 < lay.size < lay.nbuf && lay.start + lay.size + lay.size <= lay.blocks
    ensures CanStep(lay, s, CommitStep) && var t := Do(lay, s, CommitStep);
            if tail + 1 < lay.size then Overrun(lay, base, t, x, tail + 1)
            else && t.phase == WritingHead && t.groups == [] && t.lh == s.lh
                 && |t.disk| == |base| && t.disk[lay.start] == base[lay.start]
                 && t.disk[lay.start + lay.size] == x
  {
    hide Pins, Gets, Copies, Busy;
    assert s.lh[tail] == lay.start + lay.size + tail;
    CopyBuffers(lay, s, tail);
    var b, data := lay.start + 1 + tail, Read(s, s.lh[tail]);
    var t := Written(s, b, data).(phase := PhaseAfterLog(s.lh, tail + 1));
    assert Do(lay, s, CommitStep) == t;
    hide CanStep, Do;
    if tail + 1 < lay.size {
      assert b !in s.lh;
      PinsWritten(s, b, data);
      PinsSame(Written(s, b, data), t);
    }
  }

  lemma PinsSame(s: State, t: State)
    requires Pins(s) && t.cache == s.cache && t.lh == s.lh
    ensures Pins(t)
  {
    assert Busy(t) == Busy(s);
  }

  lemma {:induction false} CopyAll(lay: Layout, base: Disk, run: seq<State>, labels: seq<Label>, x: Block, tail: nat)
    returns (run': seq<State>, labels': seq<Label>)
    requires |run| > 0 && IsRun(lay, base, run, labels) && Overrun(lay, base, run[|run| - 1], x, tail)
    requires 1 < lay.size < lay.nbuf && lay.start + lay.size + lay.size <= lay.blocks
    ensures |run'| > 0 && IsRun(lay, base, run', labels') && var t := run'[|run'| - 1];
            && t.phase == WritingHead && t.groups == [] && |t.lh| == lay.size && |t.disk| == |base| == lay.blocks
            && t.disk[lay.start] == base[lay.start] && t.disk[lay.start + lay.size] == x
    decreases lay.size - tail
  {
    hide Do, CanStep, IsRun;
    CopyOne(lay, base, run[|run| - 1], x, tail);
    run', labels' := Go(lay, base, run, labels, CommitStep);
    if tail + 1 < lay.size {
      run', labels' := CopyAll(lay, base, run', labels', x, tail + 1);
    }
  }

  /** A block of other content. */
  function Other(b: Block): Block { b[0 := b[0] + 1] }

  ghost predicate Formatted(lay: Layout, base: Disk)
  {
    DiskOk(lay, base) && base[lay.start][0] == 0 && lay.start + lay.size + LOGSIZE <= lay.blocks
  }

  lemma FilledStarts(lay: Layout, base: Disk, s: State, n: nat)
    requires Formatted(lay, base) && n + 2 == lay.size <= LOGSIZE && Filled(lay, base, s, n) && lay.size <= lay.nbuf
    ensures Start(lay, s, lay.start + lay.size + n)
  {
    PinsCount(s);
    assert lay.start + lay.size + n !in After(lay, n) && lay.start + lay.size + n + 1 !in After(lay, n);
  }

  lemma RacedIs(lay: Layout, base: Disk, s: State, n: nat, x: Block)
    requires Formatted(lay, base) && n + 2 == lay.size <= LOGSIZE && Filled(lay, base, s, n)
    ensures var t := Raced(s, lay.start + lay.size + n, x);
            && t.phase == Running && !t.committing && t.outstanding == 3 && t.groups == [] && t.disk == base
               && |base| == lay.blocks
            && |t.active| == 3 && !t.active[0].checked && !t.active[1].checked && !t.active[2].checked && Idle(t)
            && t.lh == After(lay, lay.size) && Pins(t) && t.begun == {0, 1, 2}
            && (forall b :: b in t.cache ==> b < lay.start + lay.size + lay.size)
            && var last := lay.start + lay.size + (lay.size - 1); last in t.cache && t.cache[last].data == x
  {
    var b := lay.start + lay.size + n;
    PinsRaced(s, b, x);
    hide Pins;
    assert Raced(s, b, x).lh == After(lay, lay.size);
  }

  lemma PinsRaced(s: State, b: nat, x: Block)
    requires |s.active| == 3 && b + 1 < |s.disk| && Pins(s)
    ensures Pins(Raced(s, b, x))
  {
    var t := Raced(s, b, x);
    assert t.lh[|s.lh|] == b && t.lh[|s.lh| + 1] == b + 1;
    forall c | c in Busy(t) ensures c in Names(t.lh) {
      if c != b && c != b + 1 {
        assert c in Busy(s) && c in Names(s.lh);
      }
    }
  }

  /** The race: log areas of 2 to LOGSIZE blocks get one block more to hold than they can, if there are as many buffers. */
  lemma OneTooMany(lay: Layout, base: Disk, x: Block) returns (run: seq<State>, labels: seq<Label>)
    requires Formatted(lay, base) && 1 < lay.size <= LOGSIZE && lay.size <= lay.nbuf
    ensures IsRun(lay, base, run, labels) && |run| > 0 && var t := run[|run| - 1];
            && t.phase == Running && !t.committing && t.outstanding == 3 && t.groups == [] && t.disk == base
               && |base| == lay.blocks
            && |t.active| == 3 && !t.active[0].checked && !t.active[1].checked && !t.active[2].checked && Idle(t)
            && t.lh == After(lay, lay.size) && Pins(t) && t.begun == {0, 1, 2}
            && (forall b :: b in t.cache ==> b < lay.start + lay.size + lay.size)
            && var last := lay.start + lay.size + (lay.size - 1); last in t.cache && t.cache[last].data == x
  {
    hide Do, CanStep, IsRun, Raced, Start, Filled, Idle, After, Pins;
    var n := lay.size - 2;
    run, labels := Fill(lay, base, n);
    var s := run[|run| - 1];
    FilledStarts(lay, base, s, n);
    RacedIs(lay, base, s, n, x);
    run, labels := Race(lay, base, run, labels, lay.start + lay.size + n, x);
  }

  /** With a buffer more than that they are overrun: two calls pass the guard on the last free slot, both append, and commit
      writes uncommitted data over the first block after the area while no group is committed and the header says the log is
      empty. */
  lemma OverrunHitsHome(lay: Layout, base: Disk) returns (run: seq<State>, labels: seq<Label>)
    requires Formatted(lay, base) && 1 < lay.size <= LOGSIZE && lay.size < lay.nbuf
    ensures IsRun(lay, base, run, labels) && |run| > 0 && var t := run[|run| - 1];
            && t.phase == WritingHead && t.groups == [] && |t.lh| == lay.size && |t.disk| == |base| == lay.blocks
            && t.disk[lay.start] == base[lay.start] && lay.Home(lay.start + lay.size)
            && t.disk[lay.start + lay.size] == Other(base[lay.start + lay.size])
  {
    hide Do, CanStep, IsRun, Pins;
    var x := Other(base[lay.start + lay.size]);
    run, labels := OneTooMany(lay, base, x);
    var s := run[|run| - 1];
    run, labels := EndAll(lay, base, run, labels);
    PinsSame(s, Closed(s));
    run, labels := CopyAll(lay, base, run, labels, x, 0);
  }

  // ---- Two calls -------------------------------------------------------------------------------------------------

  /** One call has logged the n blocks after the log area. */
  ghost predicate Alone(lay: Layout, base: Disk, s: State, n: nat)
  {
    && s.phase == Running && !s.committing && s.outstanding == 1 && s.begun == {0} && s.active == [Call(0, n, false)]
    && s.disk == base && |base| == lay.blocks && s.lh == After(lay, n) && Pins(s)
    && forall b :: b in s.cache ==> b < lay.start + lay.size + n
  }

  lemma AloneNext(lay: Layout, base: Disk, s: State, n: nat)
    requires Alone(lay, base, s, n) && lay.start + lay.size + n < lay.blocks
    ensures Alone(lay, base, Logged(s, 0, lay.start + lay.size + n), n + 1)
  {
    var b := lay.start + lay.size + n;
    PinsLogged(s, 0, b);
    hide Pins;
    assert Logged(s, 0, b).lh == After(lay, n + 1);
  }

  lemma OneCall(lay: Layout, base: Disk) returns (run: seq<State>, labels: seq<Label>)
    requires Formatted(lay, base)
    ensures |run| > 0 && IsRun(lay, base, run, labels) && Alone(lay, base, run[|run| - 1], 0)
  {
    var s0 := State(base, map[], [], 0, false, Running, [], {}, NoGroup, [], {});
    run, labels := [s0], [];
    ExtendRun(lay, base, run, labels, Begin(0));
    run, labels := run + [Do(lay, s0, Begin(0))], labels + [Begin(0)];
    assert Do(lay, s0, Begin(0)).lh == After(lay, 0);
  }

  /** After one call has logged any number of blocks that it may log, a second call can begin. */
  lemma {:induction false} SecondCallBegins(lay: Layout, base: Disk, n: nat) returns (run: seq<State>, labels: seq<Label>)
    requires Formatted(lay, base) && n <= MAXOPBLOCKS && n < lay.size && n <= lay.nbuf
    ensures |run| > 0 && IsRun(lay, base, run, labels) && Alone(lay, base, run[|run| - 1], n)
    ensures CanStep(lay, run[|run| - 1], Begin(1))
  {
    if n == 0 {
      run, labels := OneCall(lay, base);
    } else {
      hide Do, CanStep, IsRun, Logged, Pins;
      run, labels := SecondCallBegins(lay, base, n - 1);
      var b := lay.start + lay.size + (n - 1);
      assert b !in After(lay, n - 1);
      AloneNext(lay, base, run[|run| - 1], n - 1);
      PinsCount(run[|run| - 1]);
      run, labels := FillOne(lay, base, run, labels, 0, b);
      AloneAdmits(lay, base, run[|run| - 1], n);
    }
  }

  lemma AloneAdmits(lay: Layout, base: Disk, s: State, n: nat)
    requires Alone(lay, base, s, n) && n <= MAXOPBLOCKS
    ensures CanStep(lay, s, Begin(1))
  {
  }

  // ---- Exactly when -------------------------------------------------------------------------------------------------------

  /** No run leads a call that is within its budget into log_write's panic. */
  ghost predicate NeverTooBig(lay: Layout, base: Disk)
  {
    forall run, labels, k: nat, i: nat {:trigger IsRun(lay, base, run, labels), PanicsInBudget(lay, run[k], i)} ::
      IsRun(lay, base, run, labels) && k < |run| ==> !PanicsInBudget(lay, run[k], i)
  }

  ghost predicate Fits(lay: Layout, s: State) { |s.lh| <= lay.size - 1 }

  /** No run logs more blocks than the log area holds. */
  ghost predicate AlwaysFits(lay: Layout, base: Disk)
  {
    forall run, labels, k: nat {:trigger IsRun(lay, base, run, labels), Fits(lay, run[k])} ::
      IsRun(lay, base, run, labels) && k < |run| ==> Fits(lay, run[k])
  }

  /** At every moment of every run a crash recovers exactly the committed groups. */
  ghost predicate AlwaysCrashSafe(lay: Layout, base: Disk)
  {
    forall run, labels, k: nat {:trigger IsRun(lay, base, run, labels), CrashSafe(lay, base, run[k])} ::
      IsRun(lay, base, run, labels) && k < |run| ==> CrashSafe(lay, base, run[k])
  }

  lemma RunFits(lay: Layout, base: Disk, run: seq<State>, labels: seq<Label>, k: nat)
    requires IsRun(lay, base, run, labels) && k < |run| && (Roomy(lay) || lay.nbuf < lay.size)
    ensures Fits(lay, run[k])
  {
    hide DiskInv, CacheInv, Books, IsRun;
    if Roomy(lay) {
      RunKeepsInv(lay, base, run, labels, k);
    } else {
      RunKeepsFit(lay, base, run, labels, k);
    }
  }

  /** Exact condition: the blocks logged always fit the log area if and only if it has more than LOGSIZE blocks, or only the
      header, when log_write always panics, or more blocks than the cache has buffers. */
  lemma AlwaysFitsIff(lay: Layout, base: Disk)
    requires Formatted(lay, base)
    ensures AlwaysFits(lay, base) <==> Roomy(lay) || lay.nbuf < lay.size
  {
    hide IsRun, DiskOk, Pins, Idle;
    DiskValid(lay, base);
    if Roomy(lay) || lay.nbuf < lay.size {
      forall run, labels, k: nat | IsRun(lay, base, run, labels) && k < |run| ensures Fits(lay, run[k]) {
        RunFits(lay, base, run, labels, k);
      }
    } else {
      var zero: Block := seq(BWORDS, i => 0);
      var run, labels := OneTooMany(lay, base, zero);
      assert !Fits(lay, run[|run| - 1]);
    }
  }

  lemma DiskValid(lay: Layout, d: Disk)
    requires DiskOk(lay, d)
    ensures lay.Valid()
  {
  }

  /** The promise of the log, that a crash at any moment recovers exactly the committed groups, holds if and only if the log
      area has more than LOGSIZE blocks, or only the header, or at least as many blocks as the cache has buffers: then commit
      finds no buffer to overrun it with. mkfs gives it LOGSIZE, and NBUF is LOGSIZE. */
  lemma CrashSafeIffAmple(lay: Layout, base: Disk)
    requires Formatted(lay, base)
    ensures AlwaysCrashSafe(lay, base) <==> Ample(lay)
  {
    hide IsRun, DiskOk, CrashSafe;
    DiskValid(lay, base);
    if Ample(lay) {
      forall run, labels, k: nat | IsRun(lay, base, run, labels) && k < |run| ensures CrashSafe(lay, base, run[k]) {
        CrashRecoversCommittedGroups(lay, base, run, labels, k);
      }
    } else {
      var run, labels := OverrunHitsHome(lay, base);
      OverrunUnsafe(lay, base, run[|run| - 1]);
    }
  }

  /** Recovering the overrun disk gives the uncommitted block. */
  lemma OverrunUnsafe(lay: Layout, base: Disk, t: State)
    requires Formatted(lay, base) && t.groups == [] && |t.disk| == |base| == lay.blocks && t.disk[lay.start] == base[lay.start]
    requires lay.Home(lay.start + lay.size) && t.disk[lay.start + lay.size] == Other(base[lay.start + lay.size])
    ensures !CrashSafe(lay, base, t)
  {
    hide Recovered, Logical;
    var b := lay.start + lay.size;
    assert DiskOk(lay, t.disk);
    RecoveredIsLogical(lay, t.disk, b);
    EmptyLogIsLiteral(lay, t.disk, b);
    assert Durable(base, t.groups)[b] == base[b];
  }

  /** With so few buffers the list stays below the guard. */
  lemma FewBuffersNeverPanic(lay: Layout, base: Disk, run: seq<State>, labels: seq<Label>, k: nat, i: nat)
    requires IsRun(lay, base, run, labels) && k < |run| && lay.nbuf < lay.size - 1
    ensures !PanicsInBudget(lay, run[k], i)
  {
    hide IsRun, Inv;
    if i < |run[k].active| {
      LogSpaceSuffices(lay, base, run, labels, k, i);
      RunKeepsFit(lay, base, run, labels, k);
      RunKeepsBusy(lay, base, run, labels, k);
      InvPinned(lay, base, run[k]);
      DirtyCount(run[k]);
    }
  }

  /** The reservation of begin_op suffices for both guards of log_write exactly when the log area has more than LOGSIZE
      blocks, or there are fewer buffers than it has room for blocks. With LOGSIZE of both, three calls can meet the panic with
      budget left. */
  lemma NeverTooBigIff(lay: Layout, base: Disk)
    requires Formatted(lay, base)
    ensures NeverTooBig(lay, base) <==> lay.size > LOGSIZE || lay.nbuf < lay.size - 1
  {
    hide IsRun, DiskOk, Do, CanStep, Logged, Pins;
    DiskValid(lay, base);
    if lay.size > LOGSIZE {
      forall run, labels, k: nat, i: nat | IsRun(lay, base, run, labels) && k < |run| ensures !PanicsInBudget(lay, run[k], i) {
        BigLogNeverPanics(lay, base, run, labels, k, i);
      }
    } else if lay.nbuf < lay.size - 1 {
      forall run, labels, k: nat, i: nat | IsRun(lay, base, run, labels) && k < |run| ensures !PanicsInBudget(lay, run[k], i) {
        FewBuffersNeverPanic(lay, base, run, labels, k, i);
      }
    } else if lay.size == 1 {
      var run, labels := Fill(lay, base, 0);
      assert PanicsInBudget(lay, run[|run| - 1], 2);
    } else {
      var n := lay.size - 2;
      var run, labels := Fill(lay, base, n);
      var s := run[|run| - 1];
      PinsCount(s);
      FilledRoom(lay, base, s, n);
      run, labels := FillOne(lay, base, run, labels, 1, lay.start + lay.size + n);
      LoggedIs(s, 1, lay.start + lay.size + n);
      assert PanicsInBudget(lay, run[|run| - 1], 2);
    }
  }

  lemma FilledRoom(lay: Layout, base: Disk, s: State, n: nat)
    requires Formatted(lay, base) && n + 2 == lay.size <= LOGSIZE && Filled(lay, base, s, n)
    ensures var b := lay.start + lay.size + n;
            lay.Home(b) && b < |s.disk| && b !in s.cache && b !in s.lh && !TooBig(lay, s.lh)
  {
  }

  lemma LoggedIs(s: State, j: nat, b: nat)
    requires j < |s.active| && b < |s.disk|
    ensures var t := Logged(s, j, b);
            |t.lh| == |s.lh| + 1 && |t.active| == |s.active|
                && forall i :: 0 <= i < |s.active| && i != j ==> t.active[i] == s.active[i]
  {
  }
}
