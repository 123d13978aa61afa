/** How many buffers the log needs (src/log.c, src/bio.c). A logged block stays in its buffer until it is installed, and commit
    takes a buffer for each log block on top of that. When no run meets the panic "bget: no buffers". */
module LogBuffers {
  import opened Common
  import opened LogDisk
  import opened GroupCommit
  import opened LogRace

  /** The buffers that somebody holds. */
  ghost function Held(s: State): set<nat> { set b | b in s.cache && s.cache[b].holder.Some? }

  /** bget never panics as long as at most h buffers are held. */
  ghost predicate FindsBuffers(lay: Layout, base: Disk, h: nat)
  {
    forall run, labels, k: nat, l {:trigger IsRun(lay, base, run, labels), Buffers(lay, run[k], l)} ::
      IsRun(lay, base, run, labels) && k < |run| && |Held(run[k])| <= h && Allowed(lay, run[k], l) ==> Buffers(lay, run[k], l)
  }

  // ---- Enough buffers -------------------------------------------------------------------------------------------

  lemma BusyIs(lay: Layout, base: Disk, s: State)
    requires Inv(lay, base, s)
    ensures Busy(s) <= Names(s.lh) + Held(s) && |s.lh| <= LOGSIZE
  {
    hide DiskInv, Books, Durable, ApplyAll, Target;
    SameSize(lay, base, s);
    forall b | b in Busy(s) ensures b in Names(s.lh) + Held(s) {
      assert BufOk(lay, base, s, b);
    }
  }

  lemma UnionSize(a: set<nat>, b: set<nat>, c: set<nat>)
    requires a <= b + c
    ensures |a| <= |b| + |c|
  {
    SubsetSize(a, b + c);
    assert b + c == b + (c - b);
    SubsetSize(c - b, c);
  }

  lemma BusyCount(lay: Layout, base: Disk, s: State, y: nat)
    requires Inv(lay, base, s)
    ensures |Busy(s)| <= LOGSIZE + |Held(s)|
    ensures y in s.lh && y !in Busy(s) ==> |Busy(s)| < LOGSIZE + |Held(s)|
  {
    BusyIs(lay, base, s);
    hide Inv, Held, Busy;
    NamesCount(s.lh);
    UnionSize(Busy(s), Names(s.lh), Held(s));
    if y in s.lh && y !in Busy(s) {
      UnionSize(Busy(s), Names(s.lh) - {y}, Held(s));
    }
  }

  /** Commit holds the log block while it takes the other. */
  lemma BothFit(lay: Layout, s: State, tail: nat)
    requires |Busy(s)| < lay.nbuf && (tail < |s.lh| && s.lh[tail] !in Busy(s) ==> |Busy(s)| + 1 < lay.nbuf)
    ensures Copies(lay, s, tail)
  {
    hide Busy;
    assert Busy(s) + {} == Busy(s);
    UnionSize(Busy(s) + {lay.start + 1 + tail}, Busy(s), {lay.start + 1 + tail});
  }

  lemma EnoughBuffers(lay: Layout, base: Disk, s: State, l: Label)
    requires Inv(lay, base, s) && lay.nbuf > LOGSIZE + |Held(s)|
    ensures Buffers(lay, s, l)
  {
    hide Inv, Held, Busy, Copies;
    BusyCount(lay, base, s, 0);
    assert Busy(s) + {} == Busy(s);
    if l.CommitStep? && (s.phase.WritingLog? || s.phase.Installing?) {
      if s.phase.tail < |s.lh| {
        BusyCount(lay, base, s, s.lh[s.phase.tail]);
      }
      BothFit(lay, s, s.phase.tail);
    }
  }

  // ---- Too few ------------------------------------------------------------------------------------------------------

  /** How many of n blocks each of three calls has logged, one after the other. */
  function Deal(n: nat, j: nat): nat { if n < 10 * j then 0 else if n < 10 * j + 10 then n - 10 * j else 10 }

  /** Three calls that have together logged the n blocks after the log area. */
  ghost predicate Dealt(lay: Layout, base: Disk, s: State, n: nat)
  {
    && Open(lay, base, s, n) && Idle(s) && Pins(s)
    && s.active == [Call(0, Deal(n, 0), false), Call(1, Deal(n, 1), false), Call(2, Deal(n, 2), false)]
  }

  lemma DealtNext(lay: Layout, base: Disk, s: State, n: nat)
    requires Dealt(lay, base, s, n) && n < LOGSIZE && lay.start + lay.size + n < lay.blocks
    ensures Dealt(lay, base, Logged(s, n / 10, lay.start + lay.size + n), n + 1)
  {
    var b := lay.start + lay.size + n;
    var t := Logged(s, n / 10, b);
    PinsLogged(s, n / 10, b);
    hide Pins;
    assert t.lh == After(lay, n + 1);
    assert t.active == [Call(0, Deal(n + 1, 0), false), Call(1, Deal(n + 1, 1), false), Call(2, Deal(n + 1, 2), false)];
  }

  lemma {:induction false} DealOut(lay: Layout, base: Disk, n: nat) returns (run: seq<State>, labels: seq<Label>)
    requires Formatted(lay, base) && n <= lay.size - 1 && n <= LOGSIZE && n <= lay.nbuf
    ensures |run| > 0 && IsRun(lay, base, run, labels) && Dealt(lay, base, run[|run| - 1], n)
  {
    hide Do, CanStep, IsRun, Logged, Pins;
    if n == 0 {
      run, labels := ThreeCalls(lay, base);
    } else {
      run, labels := DealOut(lay, base, n - 1);
      var b := lay.start + lay.size + (n - 1);
      assert b !in After(lay, n - 1);
      DealtNext(lay, base, run[|run| - 1], n - 1);
      PinsCount(run[|run| - 1]);
      run, labels := FillOne(lay, base, run, labels, (n - 1) / 10, b);
    }
  }

  /** commit is about to write its first log block, all logged blocks are in their buffers, and nobody holds one. */
  ghost predicate Committing(lay: Layout, base: Disk, s: State, n: nat)
  {
    && s.phase == WritingLog(0) && s.committing && s.active == [] && s.begun == {0, 1, 2} && |s.disk| == lay.blocks
    && s.lh == After(lay, n) && n > 0 && Idle(s) && Pins(s)
    && forall b :: b in s.cache ==> b < lay.start + lay.size + n
  }

  /** As many logged blocks as there are buffers, or as calls may log. */
  lemma AllPinned(lay: Layout, base: Disk) returns (run: seq<State>, labels: seq<Label>)
    requires Formatted(lay, base) && 0 < lay.nbuf && (lay.size > LOGSIZE || (1 < lay.size && lay.nbuf <= lay.size))
    ensures |run| > 0 && IsRun(lay, base, run, labels)
    ensures Committing(lay, base, run[|run| - 1], if lay.nbuf < LOGSIZE then lay.nbuf else LOGSIZE)
  {
    hide Do, CanStep, IsRun, Pins;
    if lay.size <= LOGSIZE && lay.nbuf == lay.size {
      var zero: Block := seq(BWORDS, i => 0);
      run, labels := OneTooMany(lay, base, zero);
    } else {
      run, labels := DealOut(lay, base, if lay.nbuf < LOGSIZE then lay.nbuf else LOGSIZE);
    }
    var s := run[|run| - 1];
    run, labels := EndAll(lay, base, run, labels);
    PinsSame(s, Closed(s));
  }

  /** j readers hold a block each. */
  ghost predicate Reading(lay: Layout, base: Disk, s: State, n: nat, j: nat)
  {
    && s.phase == WritingLog(0) && s.committing && s.active == [] && s.begun == {0, 1, 2} && |s.disk| == lay.blocks
    && s.lh == After(lay, n) && n > 0 && AllDirty(s)
    && Held(s) == Readers(lay, j) && Busy(s) == Names(s.lh) + Readers(lay, j)
    && forall b :: b in s.cache ==> b < lay.start + lay.size + LOGSIZE + j
  }

  ghost function Readers(lay: Layout, j: nat): set<nat>
  {
    Numbers(lay.start + lay.size + LOGSIZE, lay.start + lay.size + LOGSIZE + j)
  }

  lemma ReadersAre(lay: Layout, j: nat)
    ensures |Readers(lay, j)| == j && Readers(lay, 0) == {}
    ensures forall b :: b in Readers(lay, j) <==> lay.start + lay.size + LOGSIZE <= b < lay.start + lay.size + LOGSIZE + j
    ensures Readers(lay, j + 1) == Readers(lay, j) + {lay.start + lay.size + LOGSIZE + j}
  {
    hide Numbers;
  }

  lemma AfterNames(lay: Layout, n: nat)
    ensures |Names(After(lay, n))| == n
    ensures forall b :: b in Names(After(lay, n)) <==> lay.start + lay.size <= b < lay.start + lay.size + n
  {
    var x := After(lay, n);
    DistinctCount(x, Names(x));
    NamesCount(x);
    forall b: nat | lay.start + lay.size <= b < lay.start + lay.size + n ensures b in x {
      assert x[b - lay.start - lay.size] == b;
    }
  }

  lemma DisjointSize(a: set<nat>, b: set<nat>)
    requires a !! b
    ensures |a + b| == |a| + |b|
  {
  }

  lemma ReadingCount(lay: Layout, base: Disk, s: State, n: nat, j: nat)
    requires Reading(lay, base, s, n, j) && n <= LOGSIZE
    ensures |Busy(s)| == n + j && |Held(s)| == j && Busy(s) + {} == Busy(s)
    ensures forall b :: b in Busy(s) ==> lay.start + lay.size <= b < lay.start + lay.size + LOGSIZE + j
  {
    hide Busy, Held, AllDirty, Readers, Names, After;
    ReadersAre(lay, j);
    AfterNames(lay, n);
    DisjointSize(Names(s.lh), Readers(lay, j));
  }

  lemma HasHeld(s: State, who: nat, b: nat)
    requires b < |s.disk|
    ensures Held(Has(s, who, b)) == Held(s) + {b} && (AllDirty(s) && b !in s.cache ==> AllDirty(Has(s, who, b)))
  {
  }

  lemma OneMore(x: set<nat>, y: set<nat>, b: nat)
    ensures x + y + {b} == x + (y + {b})
  {
  }

  lemma ReadOneMore(lay: Layout, s: State, who: nat, b: nat)
    requires s.committing && s.active == [] && who !in s.begun && lay.Home(b) && b < |s.disk| && b !in s.cache
    requires |Busy(s)| < lay.nbuf && Busy(s) + {} == Busy(s)
    ensures CanStep(lay, s, Bread(who, b)) && Do(lay, s, Bread(who, b)) == Has(s, who, b)
  {
    hide Busy;
  }

  lemma ReadMore(lay: Layout, base: Disk, s: State, n: nat, j: nat)
    requires Reading(lay, base, s, n, j) && n <= LOGSIZE && n + j < lay.nbuf
    requires lay.start + lay.size + LOGSIZE + j < lay.blocks
    ensures var l := Bread(3 + j, lay.start + lay.size + LOGSIZE + j);
            CanStep(lay, s, l) && Reading(lay, base, Do(lay, s, l), n, j + 1)
  {
    hide CanStep, Do, Busy, Held, Readers, Names, After, AllDirty;
    var b := lay.start + lay.size + LOGSIZE + j;
    assert b !in s.cache;
    ReadingCount(lay, base, s, n, j);
    ReadOneMore(lay, s, 3 + j, b);
    HasBusy(s, 3 + j, b);
    HasHeld(s, 3 + j, b);
    ReadersAre(lay, j);
    OneMore(Names(s.lh), Readers(lay, j), b);
  }

  lemma {:induction false} ReadersCome(lay: Layout, base: Disk, run: seq<State>, labels: seq<Label>, n: nat, j: nat)
    returns (run': seq<State>, labels': seq<Label>)
    requires |run| > 0 && IsRun(lay, base, run, labels) && Reading(lay, base, run[|run| - 1], n, 0)
    requires n <= LOGSIZE && n + j <= lay.nbuf && lay.start + lay.size + LOGSIZE + j <= lay.blocks
    ensures |run'| > 0 && IsRun(lay, base, run', labels') && Reading(lay, base, run'[|run'| - 1], n, j)
    decreases j
  {
    hide Do, CanStep, IsRun, Reading;
    run', labels' := run, labels;
    if j > 0 {
      run', labels' := ReadersCome(lay, base, run, labels, n, j - 1);
      ReadMore(lay, base, run'[|run'| - 1], n, j - 1);
      run', labels' := Go(lay, base, run', labels', Bread(3 + (j - 1), lay.start + lay.size + LOGSIZE + (j - 1)));
    }
  }

  lemma NobodyReads(lay: Layout, base: Disk, s: State, n: nat)
    requires Committing(lay, base, s, n) && n <= LOGSIZE
    ensures Reading(lay, base, s, n, 0)
  {
    ReadersAre(lay, 0);
    forall b | b in Names(s.lh) ensures b in Busy(s) {
    }
  }

  /** All buffers are in use when commit wants one. */
  lemma RunsOut(lay: Layout, base: Disk, s: State, n: nat, j: nat)
    requires Reading(lay, base, s, n, j) && lay.nbuf == n + j && lay.Valid() && 1 < lay.size && n <= LOGSIZE
    requires lay.start + lay.size + LOGSIZE <= lay.blocks
    ensures |Held(s)| == j && s.phase == WritingLog(0) && Allowed(lay, s, CommitStep) && !Buffers(lay, s, CommitStep)
  {
    hide Busy, Readers, Names;
    ReadingCount(lay, base, s, n, j);
    ReadersAre(lay, j);
    assert s.lh[0] == lay.start + lay.size;
    assert Free(s, lay.start + 1) && Free(s, s.lh[0]) by {
      assert lay.start + 1 !in Held(s) && s.lh[0] !in Held(s);
    }
    hide Held, After, Free;
  }

  /** With at most LOGSIZE buffers besides those held there is a run in which commit panics before it writes its first block. */
  lemma CommitRunsOut(lay: Layout, base: Disk, h: nat) returns (run: seq<State>, labels: seq<Label>)
    requires Formatted(lay, base) && 0 < lay.nbuf <= LOGSIZE + h && (lay.size > LOGSIZE || (1 < lay.size && lay.nbuf <= lay.size))
    requires lay.start + lay.size + LOGSIZE + h <= lay.blocks
    ensures |run| > 0 && IsRun(lay, base, run, labels) && var t := run[|run| - 1];
            && |Held(t)| <= h && t.phase == WritingLog(0) && Allowed(lay, t, CommitStep) && !Buffers(lay, t, CommitStep)
  {
    hide IsRun, Committing, Reading, Allowed, Buffers, Held, DiskOk;
    DiskValid(lay, base);
    var n := if lay.nbuf < LOGSIZE then lay.nbuf else LOGSIZE;
    run, labels := AllPinned(lay, base);
    NobodyReads(lay, base, run[|run| - 1], n);
    run, labels := ReadersCome(lay, base, run, labels, n, lay.nbuf - n);
    RunsOut(lay, base, run[|run| - 1], n, lay.nbuf - n);
  }

  // ---- Exactly when -------------------------------------------------------------------------------------------------------

  lemma NoBuffersAtAll(lay: Layout, base: Disk, h: nat)
    requires Formatted(lay, base) && lay.nbuf == 0
    ensures !FindsBuffers(lay, base, h)
  {
    var s := State(base, map[], [], 0, false, Running, [], {}, NoGroup, [], {});
    var l := Bread(0, lay.start + lay.size);
    assert IsRun(lay, base, [s], []);
    assert Held(s) == {};
    assert Allowed(lay, [s][0], l) && !Buffers(lay, [s][0], l);
  }

  /** The panic is met in no run, while at most h buffers are held, if and only if there are more than LOGSIZE + h buffers. This
      is for log areas in which something can be logged and that are not overrun. NBUF is LOGSIZE. */
  lemma FindsBuffersIff(lay: Layout, base: Disk, h: nat)
    requires Formatted(lay, base) && lay.start + lay.size + LOGSIZE + h <= lay.blocks
    requires lay.size > LOGSIZE || (1 < lay.size && lay.nbuf <= lay.size)
    ensures FindsBuffers(lay, base, h) <==> lay.nbuf > LOGSIZE + h
  {
    hide IsRun, DiskOk, Allowed, Buffers, Held, Inv;
    if lay.nbuf > LOGSIZE + h {
      forall run, labels, k: nat, l | IsRun(lay, base, run, labels) && k < |run| && |Held(run[k])| <= h
        ensures Buffers(lay, run[k], l)
      {
        RunKeepsInv(lay, base, run, labels, k);
        EnoughBuffers(lay, base, run[k], l);
      }
    } else if lay.nbuf == 0 {
      NoBuffersAtAll(lay, base, h);
    } else {
      var run, labels := CommitRunsOut(lay, base, h);
      assert !Buffers(lay, run[|run| - 1], CommitStep);
    }
  }
}
