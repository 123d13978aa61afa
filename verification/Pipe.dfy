/** Pipes (src/pipe.c): a 512-byte ring driven by two 32-bit counters that are
    allowed to wrap, shared by any number of concurrent pipewrite and piperead
    calls. */
module Pipe {

  import opened Common

  const PIPESIZE: nat := 512

  type Byte = bv8

  function Slot(k: int): (i: nat)
    ensures i < PIPESIZE
  {
    k % PIPESIZE
  }

  /** The ring: slot `k % PIPESIZE` holds byte number `k` of the stream. */
  datatype Ring = Ring(data: seq<Byte>, nread: nat, nwrite: nat) {

    /** Bytes in the ring, by the same unsigned subtraction as the kernel's comparisons. */
    function Count(): nat { (nwrite - nread) % UINT }

    ghost predicate Valid() {
      |data| == PIPESIZE && nread < UINT && nwrite < UINT && Count() <= PIPESIZE
    }

    predicate Full() { nwrite == (nread + PIPESIZE) % UINT }

    predicate Empty() { nread == nwrite }

    ghost function Contents(): seq<Byte>
      requires Valid()
    {
      seq(Count(), k => data[Slot(nread + k)])
    }

    /** data[nwrite++ % PIPESIZE] = x */
    function Put(x: Byte): Ring
      requires |data| == PIPESIZE
    {
      Ring(data[Slot(nwrite) := x], nread, (nwrite + 1) % UINT)
    }

    /** data[nread % PIPESIZE] */
    function Front(): Byte
      requires |data| == PIPESIZE
    {
      data[Slot(nread)]
    }

    /** nread++ */
    function Drop(): Ring { this.(nread := (nread + 1) % UINT) }
  }

  /** Because PIPESIZE divides 2^32, a counter that wraps still names the next slot. */
  lemma WrapKeepsSlot(x: nat, k: nat)
    ensures Slot(x % UINT + k) == Slot(x + k)
  {
    var q := x / UINT;
    assert x + k == (x % UINT + k) + PIPESIZE * (8388608 * q);
  }

  lemma SlotsDiffer(x: int, y: int)
    requires x < y < x + PIPESIZE
    ensures Slot(x) != Slot(y)
  {
  }

  /** The unsigned difference of two counters: they are that far apart, or wrapped around that far. */
  lemma CountIs(r: Ring)
    requires r.Valid()
    ensures r.Count() == if r.nwrite >= r.nread then r.nwrite - r.nread else r.nwrite - r.nread + UINT
  {
  }

  lemma Wrapped(x: nat)
    requires x < 2 * UINT
    ensures x % UINT == if x < UINT then x else x - UINT
  {
  }

  lemma CountFacts(r: Ring)
    requires r.Valid()
    ensures r.Full() <==> r.Count() == PIPESIZE
    ensures r.Empty() <==> r.Count() == 0
    ensures r.nwrite == (r.nread + r.Count()) % UINT
  {
    CountIs(r);
    Wrapped(r.nread + PIPESIZE);
    Wrapped(r.nread + r.Count());
    hide Ring.Count;
  }

  lemma CountAfterPut(r: Ring, x: Byte)
    requires r.Valid() && !r.Full()
    ensures r.Put(x).Valid() && r.Put(x).Count() == r.Count() + 1
  {
    CountFacts(r);
    CountIs(r);
    Wrapped(r.nwrite + 1);
  }

  lemma CountAfterDrop(r: Ring)
    requires r.Valid() && !r.Empty()
    ensures r.Drop().Valid() && r.Drop().Count() == r.Count() - 1
  {
    CountFacts(r);
    CountIs(r);
    Wrapped(r.nread + 1);
  }

  /** Storing a byte appends it to the contents. */
  lemma PutAppends(r: Ring, x: Byte)
    requires r.Valid() && !r.Full()
    ensures r.Put(x).Valid()
    ensures r.Put(x).Contents() == r.Contents() + [x]
  {
    var r', n := r.Put(x), r.Count();
    assert n < PIPESIZE && r'.Count() == n + 1 && Slot(r.nwrite) == Slot(r.nread + n) by {
      CountFacts(r);
      CountAfterPut(r, x);
      WrapKeepsSlot(r.nread + n, 0);
    }
    forall k | 0 <= k < n ensures r'.Contents()[k] == r.Contents()[k] {
      SlotsDiffer(r.nread + k, r.nread + n);
    }
    assert r'.Contents()[n] == x;
  }

  /** Fetching a byte takes the oldest one. */
  lemma DropRemovesFront(r: Ring)
    requires r.Valid() && !r.Empty()
    ensures r.Drop().Valid()
    ensures r.Contents() == [r.Front()] + r.Drop().Contents()
  {
    var r', n := r.Drop(), r.Count();
    assert 0 < n && r'.Valid() && r'.Count() == n - 1 by {
      CountFacts(r);
      CountAfterDrop(r);
    }
    forall k | 0 <= k < n - 1 ensures r'.Contents()[k] == r.Contents()[k + 1] {
      WrapKeepsSlot(r.nread + 1, k);
    }
  }

  /** The kernel's two tests on the counters are the tests one wants. */
  lemma FullAndEmpty(r: Ring)
    requires r.Valid()
    ensures r.Full() <==> |r.Contents()| == PIPESIZE
    ensures r.Empty() <==> r.Contents() == []
  {
    CountFacts(r);
  }

  // ---- Every interleaving of calls --------------------------------------------------------

  /** A call to pipewrite or piperead. `from` is where in the stream a read began to copy. */
  datatype Call =
    | Writing(src: seq<Byte>, i: nat)
    | Wrote(src: seq<Byte>, i: nat, result: int)
    | ReadWaiting(n: nat)
    | ReadCopying(n: nat, from: nat, dst: seq<Byte>)
    | HasRead(from: nat, dst: seq<Byte>, result: int)

  /** A byte taken from the buffer of call number `call`. */
  datatype Sent = Sent(call: nat, byte: Byte)

  /** `asleep` are the calls that sleep, a pipewrite on &nwrite and a piperead on &nread. */
  datatype State = State(ring: Ring, readopen: bool, writeopen: bool, lock: Option<nat>,
                         calls: seq<Call>, asleep: set<nat>, accepted: seq<Sent>, delivered: seq<Byte>)

  datatype Label =
    | Start(call: Call)
    | Acquire(c: nat)
    | PutByte(c: nat)
    | SleepFull(c: nat)
    | FailFull(c: nat, killed: bool)
    | FinishWrite(c: nat)
    | SleepEmpty(c: nat)
    | FailEmpty(c: nat, killed: bool)
    | BeginCopy(c: nat)
    | GetByte(c: nat)
    | FinishRead(c: nat)
    | Close(writable: bool)
    | Rouse(c: nat)   // kill wakes a sleeper

  ghost predicate Init(s: State)
  {
    && s.ring.Valid() && s.ring.Empty() && s.readopen && s.writeopen && s.lock == None
    && s.calls == [] && s.asleep == {} && s.accepted == [] && s.delivered == []
  }

  ghost predicate Holds(s: State, c: nat) { c < |s.calls| && s.lock == Some(c) }

  /** The caller is a pipewrite whose next byte finds the ring full. */
  ghost predicate BlockedFull(s: State, c: nat)
  {
    Holds(s, c) && s.calls[c].Writing? && s.calls[c].i < |s.calls[c].src| && s.ring.Full()
  }

  /** The caller is a piperead that finds the ring empty and a writer still there. */
  ghost predicate BlockedEmpty(s: State, c: nat)
  {
    Holds(s, c) && s.calls[c].ReadWaiting? && s.ring.Empty() && s.writeopen
  }

  /** Who sleeps after wakeup(&nread). */
  ghost function ReadersWoken(s: State): set<nat> { set c | c in s.asleep && !(c < |s.calls| && s.calls[c].ReadWaiting?) }

  /** Who sleeps after wakeup(&nwrite). */
  ghost function WritersWoken(s: State): set<nat> { set c | c in s.asleep && !(c < |s.calls| && s.calls[c].Writing?) }

  /** One step of one call. Whoever is woken takes the lock again, when it is free, and looks at the ring again. */
  ghost predicate Step(s: State, t: State, l: Label)
  {
    match l
    case Start(call) =>
      && (call.ReadWaiting? || (call.Writing? && call.i == 0))
      && t == s.(calls := s.calls + [call])
    case Acquire(c) =>
      && c < |s.calls| && c !in s.asleep && s.lock == None && (s.calls[c].Writing? || s.calls[c].ReadWaiting?)
      && t == s.(lock := Some(c))
    case PutByte(c) =>
      && Holds(s, c) && s.calls[c].Writing? && s.calls[c].i < |s.calls[c].src|
      && s.ring.Valid() && !s.ring.Full()
      && var w := s.calls[c];
         t == s.(ring := s.ring.Put(w.src[w.i]), calls := s.calls[c := Writing(w.src, w.i + 1)],
                 accepted := s.accepted + [Sent(c, w.src[w.i])])
    case SleepFull(c) =>
      BlockedFull(s, c) && s.readopen && t == s.(lock := None, asleep := ReadersWoken(s) + {c})
    case FailFull(c, killed) =>
      && BlockedFull(s, c) && (!s.readopen || killed)
      && t == s.(lock := None, calls := s.calls[c := Wrote(s.calls[c].src, s.calls[c].i, -1)])
    case FinishWrite(c) =>
      && Holds(s, c) && s.calls[c].Writing? && s.calls[c].i == |s.calls[c].src|
      && t == s.(lock := None, asleep := ReadersWoken(s),
         calls := s.calls[c := Wrote(s.calls[c].src, s.calls[c].i, s.calls[c].i)])
    case SleepEmpty(c) =>
      BlockedEmpty(s, c) && t == s.(lock := None, asleep := s.asleep + {c})
    case FailEmpty(c, killed) =>
      && BlockedEmpty(s, c) && killed
      && t == s.(lock := None, calls := s.calls[c := HasRead(|s.delivered|, [], -1)])
    case BeginCopy(c) =>
      && Holds(s, c) && s.calls[c].ReadWaiting? && !BlockedEmpty(s, c)
      && t == s.(calls := s.calls[c := ReadCopying(s.calls[c].n, |s.delivered|, [])])
    case GetByte(c) =>
      && Holds(s, c) && s.calls[c].ReadCopying? && |s.calls[c].dst| < s.calls[c].n
      && s.ring.Valid() && !s.ring.Empty()
      && var r := s.calls[c];
         t == s.(ring := s.ring.Drop(), calls := s.calls[c := ReadCopying(r.n, r.from, r.dst + [s.ring.Front()])],
                 delivered := s.delivered + [s.ring.Front()])
    case FinishRead(c) =>
      && Holds(s, c) && s.calls[c].ReadCopying?
      && (|s.calls[c].dst| == s.calls[c].n || s.ring.Empty())
      && t == s.(lock := None, asleep := WritersWoken(s),
         calls := s.calls[c := HasRead(s.calls[c].from, s.calls[c].dst, |s.calls[c].dst|)])
    case Close(writable) =>
      && s.lock == None
      && t == if writable then s.(writeopen := false, asleep := ReadersWoken(s))
         else s.(readopen := false, asleep := WritersWoken(s))
    case Rouse(c) => t == s.(asleep := s.asleep - {c})
  }

  // ---- The code ------------------------------------------------------------------------------------------------

  /** How a stretch of a call that holds the pipe lock ends. */
  datatype Outcome = Sleeps | Fails | Returns

  /** States that follow each other by steps with one label. */
  ghost predicate Steps(trace: seq<State>, s: State, l: Label)
  {
    |trace| > 0 && trace[0] == s && forall k :: 0 <= k < |trace| - 1 ==> Goes(trace, k, l)
  }

  ghost predicate Goes(trace: seq<State>, k: nat, l: Label)
    requires k + 1 < |trace|
  {
    Step(trace[k], trace[k + 1], l)
  }

  ghost function Final(trace: seq<State>): State
    requires |trace| > 0
  {
    trace[|trace| - 1]
  }

  lemma StepsMore(trace: seq<State>, s: State, l: Label, t: State)
    requires Steps(trace, s, l) && Step(Final(trace), t, l)
    ensures Steps(trace + [t], s, l)
  {
    hide Step;
    forall k | 0 <= k < |trace| ensures Goes(trace + [t], k, l) {
      if k < |trace| - 1 {
        assert Goes(trace, k, l);
      }
    }
  }

  class Pipe {
    var data: array<Byte>
    var nread: nat
    var nwrite: nat
    var readopen: bool
    var writeopen: bool

    ghost function View(): Ring
      reads this, data
    {
      Ring(data[..], nread, nwrite)
    }

    constructor ()
      ensures View().Valid() && View().Contents() == [] && readopen && writeopen && fresh(data)
    {
      data := new Byte[PIPESIZE];
      nread, nwrite := 0, 0;
      readopen, writeopen := true, true;
    }

    /** The pipe as a state of the machine sees it. */
    ghost predicate Agrees(s: State)
      reads this, data
    {
      s.ring == View() && s.readopen == readopen && s.writeopen == writeopen
    }

    /** pipewrite's loop from the point where it takes the lock, with `first` bytes of `addr` already stored, to the point
        where it sleeps or returns. In the machine this is call c putting bytes, one step each, until it is blocked or done. */
    method Write(addr: seq<Byte>, first: nat, killed: bool, ghost s: State, ghost c: nat)
      returns (i: nat, outcome: Outcome, ghost trace: seq<State>)
      requires View().Valid() && first <= |addr|
      requires Agrees(s) && Holds(s, c) && s.calls[c] == Writing(addr, first)
      modifies this`nwrite, data
      ensures Steps(trace, s, PutByte(c)) && var t := Final(trace);
              && Agrees(t) && Holds(t, c) && t.calls[c] == Writing(addr, i)
              && (outcome == Returns ==> i == |addr|)
                 && (outcome != Returns ==> BlockedFull(t, c) && (outcome == Fails <==> !t.readopen || killed))
      ensures View().Valid() && first <= i <= |addr|
      ensures View().Contents() == old(View().Contents()) + addr[first..i]
      ensures outcome == Returns <==> i == |addr|
      ensures i < |addr| ==> |View().Contents()| == PIPESIZE && (outcome == Fails <==> !readopen || killed)
    {
      hide Ring.Contents, Ring.Count, Slot;
      i := first;
      trace := [s];
      ghost var before := View().Contents();
      assert before + addr[first..first] == before;
      while i < |addr|
        invariant first <= i <= |addr| && View().Valid()
        invariant View().Contents() == before + addr[first..i]
        invariant Steps(trace, s, PutByte(c)) && Agrees(Final(trace)) && Holds(Final(trace), c)
                  && Final(trace).calls[c] == Writing(addr, i)
      {
        FullAndEmpty(View());
        if nwrite == (nread + PIPESIZE) % UINT {
          outcome := if !readopen || killed then Fails else Sleeps;
          return;
        }
        PutAppends(View(), addr[i]);
        ghost var next := View().Put(addr[i]);
        data[Slot(nwrite)] := addr[i];
        nwrite := (nwrite + 1) % UINT;
        assert View() == next;
        assert addr[first..i + 1] == addr[first..i] + [addr[i]];
        ghost var t := Final(trace);
        ghost var t' := t.(ring := next, calls := t.calls[c := Writing(addr, i + 1)],
            accepted := t.accepted + [Sent(c, addr[i])]);
        StepsMore(trace, s, PutByte(c), t');
        trace := trace + [t'];
        i := i + 1;
      }
      outcome := Returns;
    }

    /** piperead from the point where it takes the lock to the point where it sleeps or returns. In the machine call c is
        blocked, or begins to copy and gets bytes, one step each, until it has enough or the ring is empty. */
    method Read(n: nat, killed: bool, ghost s: State, ghost c: nat)
      returns (dst: seq<Byte>, outcome: Outcome, ghost trace: seq<State>)
      requires View().Valid()
      requires Agrees(s) && Holds(s, c) && s.calls[c] == ReadWaiting(n)
      modifies this`nread
      ensures outcome != Returns <==> BlockedEmpty(s, c)
      ensures outcome == Returns ==>
                var begun := s.(calls := s.calls[c := ReadCopying(n, |s.delivered|, [])]);
                && Step(s, begun, BeginCopy(c)) && Steps(trace, begun, GetByte(c)) && var t := Final(trace);
                && Agrees(t) && Holds(t, c) && t.calls[c] == ReadCopying(n, |s.delivered|, dst) && (|dst| == n || t.ring.Empty())
      ensures View().Valid()
      ensures dst + View().Contents() == old(View().Contents())
      ensures outcome == Returns ==> |dst| == n || View().Contents() == []
      ensures outcome != Returns <==> old(View().Contents()) == [] && writeopen
      ensures outcome != Returns ==> (outcome == Fails <==> killed)
      ensures |dst| <= n && (outcome != Returns ==> dst == [])
    {
      hide Ring.Contents, Slot, Ring.Count;
      dst := [];
      ghost var begun := s.(calls := s.calls[c := ReadCopying(n, |s.delivered|, [])]);
      trace := [begun];
      FullAndEmpty(View());
      if nread == nwrite && writeopen {
        outcome := if killed then Fails else Sleeps;
        return;
      }
      ghost var before := View().Contents();
      while |dst| < n
        invariant View().Valid() && |dst| <= n && data[..] == old(data[..])
        invariant dst + View().Contents() == before
        invariant Steps(trace, begun, GetByte(c)) && Agrees(Final(trace)) && Holds(Final(trace), c)
        invariant Final(trace).calls[c] == ReadCopying(n, |s.delivered|, dst)
      {
        FullAndEmpty(View());
        if nread == nwrite {
          break;
        }
        DropRemovesFront(View());
        ghost var next := View().Drop();
        ghost var t := Final(trace);
        ghost var x := View().Front();
        ghost var t' := t.(ring := next, calls := t.calls[c := ReadCopying(n, |s.delivered|, dst + [x])],
            delivered := t.delivered + [x]);
        StepsMore(trace, begun, GetByte(c), t');
        trace := trace + [t'];
        dst := dst + [data[Slot(nread)]];
        nread := (nread + 1) % UINT;
        assert View() == next;
      }
      outcome := Returns;
    }
  }

  // ---- What every interleaving keeps ------------------------------------------------------------------------------

  ghost function Bytes(sent: seq<Sent>): seq<Byte>
  {
    seq(|sent|, k requires 0 <= k < |sent| => sent[k].byte)
  }

  /** The bytes that call `c` has put into the stream, in order. */
  ghost function From(sent: seq<Sent>, c: nat): seq<Byte>
  {
    if sent == [] then []
    else From(sent[..|sent| - 1], c) + if sent[|sent| - 1].call == c then [sent[|sent| - 1].byte] else []
  }

  lemma FromAppend(sent: seq<Sent>, x: Sent, c: nat)
    ensures From(sent + [x], c) == From(sent, c) + if x.call == c then [x.byte] else []
  {
    assert (sent + [x])[..|sent|] == sent;
  }

  /** Nothing is lost, duplicated or reordered between acceptance and delivery. */
  ghost predicate Fifo(s: State)
  {
    && s.ring.Valid()
    && Bytes(s.accepted) == s.delivered + s.ring.Contents()
  }

  ghost predicate CallOk(s: State, c: nat)
    requires c < |s.calls|
  {
    match s.calls[c]
    case Writing(src, i) => i <= |src| && From(s.accepted, c) == src[..i]
    case Wrote(src, i, result) =>
      && i <= |src| && From(s.accepted, c) == src[..i]
      && (result == |src| == i || (result == -1 && i < |src|))
    case ReadWaiting(_) => From(s.accepted, c) == []
    case ReadCopying(n, from, dst) =>
      && s.lock == Some(c) && |dst| <= n && From(s.accepted, c) == []
      && (dst == [] && s.ring.Empty() ==> !s.writeopen)
      && from + |dst| == |s.delivered| && s.delivered[from..] == dst
    case HasRead(from, dst, result) =>
      && From(s.accepted, c) == []
      && from + |dst| <= |s.delivered| && s.delivered[from..from + |dst|] == dst
      && (result == |dst| || (result == -1 && dst == []))
  }

  ghost predicate Inv(s: State)
  {
    && Fifo(s)
    && (forall c :: |s.calls| <= c ==> From(s.accepted, c) == [])
    && (forall c :: 0 <= c < |s.calls| ==> CallOk(s, c))
  }

  lemma PutKeepsInv(s: State, t: State, c: nat)
    requires Inv(s) && Step(s, t, PutByte(c))
    ensures Inv(t)
  {
    var w := s.calls[c];
    PutAppends(s.ring, w.src[w.i]);
    assert Bytes(t.accepted) == Bytes(s.accepted) + [w.src[w.i]];
    forall d: nat ensures From(t.accepted, d) == From(s.accepted, d) + if d == c then [w.src[w.i]] else [] {
      FromAppend(s.accepted, Sent(c, w.src[w.i]), d);
    }
    forall d | 0 <= d < |t.calls| ensures CallOk(t, d) {
      assert CallOk(s, d);
      assert CallOk(s, c);
      assert w.src[..w.i + 1] == w.src[..w.i] + [w.src[w.i]];
    }
  }

  lemma GetKeepsInv(s: State, t: State, c: nat)
    requires Inv(s) && Step(s, t, GetByte(c))
    ensures Inv(t)
  {
    hide Ring.Contents, Ring.Count, Slot;
    DropRemovesFront(s.ring);
    forall d | 0 <= d < |t.calls| ensures CallOk(t, d) {
      assert CallOk(s, d);
      assert CallOk(s, c);
      if s.calls[d].HasRead? {
        var h := s.calls[d];
        assert t.delivered[h.from..h.from + |h.dst|] == s.delivered[h.from..h.from + |h.dst|];
      }
    }
  }

  /** A step that moves no byte changes at most the state of one call and who holds the lock. */
  lemma QuietStepKeepsInv(s: State, t: State, c: nat)
    requires Inv(s) && t.ring == s.ring && t.accepted == s.accepted && t.delivered == s.delivered
    requires c <= |s.calls| && |s.calls| <= |t.calls| <= |s.calls| + 1
    requires forall d :: 0 <= d < |s.calls| && d != c ==> t.calls[d] == s.calls[d]
    requires t.lock == s.lock || s.lock == None || s.lock == Some(c)
    requires t.writeopen == s.writeopen || s.lock == None
    requires c < |t.calls| ==> CallOk(t, c)
    requires |t.calls| == |s.calls| + 1 ==> c == |s.calls|
    ensures Inv(t)
  {
    forall d | 0 <= d < |t.calls| ensures CallOk(t, d) {
      if d != c {
        assert CallOk(s, d);
      }
    }
  }

  lemma CallIsOk(s: State, c: nat)
    requires Inv(s)
    ensures if c < |s.calls| then CallOk(s, c) else From(s.accepted, c) == []
  {
  }

  lemma StepKeepsInv(s: State, t: State, l: Label)
    requires Inv(s) && Step(s, t, l)
    ensures Inv(t)
  {
    hide Inv, From, Ring.Contents, Ring.Count, Slot;
    match l
    case PutByte(c) => PutKeepsInv(s, t, c);
    case GetByte(c) => GetKeepsInv(s, t, c);
    case Close(_) => QuietStepKeepsInv(s, t, |s.calls|);
    case Rouse(_) => QuietStepKeepsInv(s, t, |s.calls|);
    case Start(_) =>
      CallIsOk(s, |s.calls|);
      QuietStepKeepsInv(s, t, |s.calls|);
    case Acquire(c) =>
      CallIsOk(s, c);
      QuietStepKeepsInv(s, t, c);
    case SleepFull(_) => WriterKeepsInv(s, t, l);
    case FailFull(_, _) => WriterKeepsInv(s, t, l);
    case FinishWrite(_) => WriterKeepsInv(s, t, l);
    case _ => ReaderKeepsInv(s, t, l);
  }

  /** A writer that goes to sleep, fails or is done. */
  lemma WriterKeepsInv(s: State, t: State, l: Label)
    requires Inv(s) && Step(s, t, l) && (l.SleepFull? || l.FailFull? || l.FinishWrite?)
    ensures Inv(t)
  {
    hide Inv, From, Ring.Contents, Ring.Count, Slot, Ring.Valid;
    CallIsOk(s, l.c);
    QuietStepKeepsInv(s, t, l.c);
  }

  /** A reader that goes to sleep, fails, begins to copy or is done. */
  lemma ReaderKeepsInv(s: State, t: State, l: Label)
    requires Inv(s) && Step(s, t, l) && (l.SleepEmpty? || l.FailEmpty? || l.BeginCopy? || l.FinishRead?)
    ensures Inv(t)
  {
    hide Inv, From, Ring.Contents, Ring.Count, Slot, Ring.Valid;
    CallIsOk(s, l.c);
    QuietStepKeepsInv(s, t, l.c);
  }

  /** A finite run: `run[k + 1]` follows `run[k]` by the step labelled `labels[k]`. */
  ghost predicate IsRun(run: seq<State>, labels: seq<Label>)
  {
    && |run| == |labels| + 1 && Init(run[0])
    && forall k :: 0 <= k < |labels| ==> Step(run[k], run[k + 1], labels[k])
  }

  lemma {:induction false} RunKeepsInv(run: seq<State>, labels: seq<Label>, k: nat)
    requires IsRun(run, labels) && k < |run|
    ensures Inv(run[k])
  {
    if k == 0 {
      CountFacts(run[0].ring);
    } else {
      RunKeepsInv(run, labels, k - 1);
      StepKeepsInv(run[k - 1], run[k], labels[k - 1]);
    }
  }

  /** In every interleaving: what was accepted is what was delivered followed by what is in the
      ring, and the ring never holds more than PIPESIZE bytes, whatever the counters' values. */
  lemma PipeIsFifo(run: seq<State>, labels: seq<Label>, k: nat)
    requires IsRun(run, labels) && k < |run|
    ensures run[k].ring.Valid() && |run[k].ring.Contents()| <= PIPESIZE
    ensures Bytes(run[k].accepted) == run[k].delivered + run[k].ring.Contents()
  {
    RunKeepsInv(run, labels, k);
  }

  /** In every interleaving: a pipewrite that returned its length put exactly its buffer into the
      stream, in order; one that failed put in a proper prefix. */
  lemma WritesArriveInOrder(run: seq<State>, labels: seq<Label>, k: nat, c: nat)
    requires IsRun(run, labels) && k < |run| && c < |run[k].calls| && run[k].calls[c].Wrote?
    ensures var w := run[k].calls[c];
            && w.i <= |w.src| && From(run[k].accepted, c) == w.src[..w.i]
            && (w.result == |w.src| <==> w.i == |w.src|)
            && (w.result != |w.src| ==> w.result == -1)
  {
    RunKeepsInv(run, labels, k);
    assert CallOk(run[k], c);
  }

  /** In every interleaving: a piperead that returned got a contiguous piece of the accepted stream. */
  lemma ReadsAreSlices(run: seq<State>, labels: seq<Label>, k: nat, c: nat)
    requires IsRun(run, labels) && k < |run| && c < |run[k].calls| && run[k].calls[c].HasRead?
    ensures var r := run[k].calls[c]; var stream := Bytes(run[k].accepted);
            && r.from + |r.dst| <= |run[k].delivered| <= |stream|
            && r.dst == stream[r.from..r.from + |r.dst|]
  {
    RunKeepsInv(run, labels, k);
    assert CallOk(run[k], c);
    var r, s := run[k].calls[c], run[k];
    assert Bytes(s.accepted)[r.from..r.from + |r.dst|] == s.delivered[r.from..r.from + |r.dst|];
  }

  /** How a pipewrite returns by this step: with its length and all bytes stored, or -1 from a full ring, because it was
      killed or there is no reader. */
  ghost predicate WriteEnds(s: State, l: Label, before: Call, after: Call)
    requires s.ring.Valid() && after.Wrote?
  {
    && before == Writing(after.src, after.i)
    && if after.result == -1
       then l.FailFull? && (l.killed || !s.readopen) && |s.ring.Contents()| == PIPESIZE && after.i < |after.src|
       else after.result == |after.src| == after.i
  }

  /** How a piperead returns by this step: with what it has copied, less than it wants only from an empty ring, and nothing
      only at the end of file; or -1 from an empty ring that has a writer, because it was killed. */
  ghost predicate ReadEnds(s: State, l: Label, before: Call, after: Call)
    requires s.ring.Valid() && after.HasRead?
  {
    && (before.ReadWaiting? || before.ReadCopying?) && |after.dst| <= before.n
    && if after.result == -1
       then l.FailEmpty? && l.killed && s.writeopen && s.ring.Contents() == [] && after.dst == []
       else && after.result == |after.dst| && (|after.dst| < before.n ==> s.ring.Contents() == [])
            && (after.dst == [] && before.n > 0 ==> !s.writeopen)
  }

  lemma StepEnds(s: State, t: State, l: Label, c: nat)
    requires s.ring.Valid() && Step(s, t, l) && c < |s.calls| && CallOk(s, c) && !s.calls[c].Wrote? && !s.calls[c].HasRead?
    ensures c < |t.calls| && (t.calls[c].Wrote? ==> WriteEnds(s, l, s.calls[c], t.calls[c]))
    ensures t.calls[c].HasRead? ==> ReadEnds(s, l, s.calls[c], t.calls[c])
  {
    FullAndEmpty(s.ring);
    hide Ring.Contents, Ring.Count, Ring.Valid, Slot, From, Ring.Put, Ring.Drop, Ring.Front, Ring.Full, Ring.Empty;
  }

  /** In every interleaving, every call that returns does so like that. */
  lemma CallsEndWell(run: seq<State>, labels: seq<Label>, k: nat, c: nat)
    requires IsRun(run, labels) && k < |labels| && c < |run[k].calls| && !run[k].calls[c].Wrote? && !run[k].calls[c].HasRead?
    ensures run[k].ring.Valid() && c < |run[k + 1].calls| && var before, after := run[k].calls[c], run[k + 1].calls[c];
            && (after.Wrote? ==> WriteEnds(run[k], labels[k], before, after))
            && (after.HasRead? ==> ReadEnds(run[k], labels[k], before, after))
  {
    hide Step, WriteEnds, ReadEnds;
    RunKeepsInv(run, labels, k);
    StepEnds(run[k], run[k + 1], labels[k], c);
  }

  // ---- Who sleeps on what ------------------------------------------------------------------------------------------

  ghost predicate WriterAsleep(s: State) { exists c :: c in s.asleep && c < |s.calls| && s.calls[c].Writing? }

  ghost predicate ReaderAsleep(s: State) { exists c :: c in s.asleep && c < |s.calls| && s.calls[c].ReadWaiting? }

  /** Somebody is between piperead's first look at the ring and its wakeup. */
  ghost predicate Copying(s: State) { s.lock.Some? && s.lock.value < |s.calls| && s.calls[s.lock.value].ReadCopying? }

  /** Somebody is in pipewrite and has not reached its wakeup. */
  ghost predicate Storing(s: State) { s.lock.Some? && s.lock.value < |s.calls| && s.calls[s.lock.value].Writing? }

  /** Only calls that wait sleep, and no sleeper holds the lock; a pipewrite sleeps on a full ring whose reader is there, or
      on one from which a reader is just copying. */
  ghost predicate SleepInv(s: State)
  {
    && (forall c :: c in s.asleep ==> c < |s.calls| && (s.calls[c].Writing? || s.calls[c].ReadWaiting?) && s.lock != Some(c))
    && (WriterAsleep(s) ==> s.readopen && (s.ring.Full() || Copying(s)))
  }

  lemma StepKeepsSleepers(s: State, t: State, l: Label)
    requires SleepInv(s) && Step(s, t, l)
    ensures SleepInv(t)
  {
    hide Ring.Put, Ring.Drop, Ring.Front, Ring.Valid;
    if WriterAsleep(t) && !l.SleepFull? {
      var c :| c in t.asleep && c < |t.calls| && t.calls[c].Writing?;
      assert c in s.asleep && c < |s.calls| && s.calls[c].Writing?;
    }
  }

  lemma {:induction false} RunKeepsSleepers(run: seq<State>, labels: seq<Label>, k: nat)
    requires IsRun(run, labels) && k < |run|
    ensures SleepInv(run[k])
  {
    hide SleepInv, Step;
    if k == 0 {
      NobodySleeps(run[0]);
    } else {
      RunKeepsSleepers(run, labels, k - 1);
      StepKeepsSleepers(run[k - 1], run[k], labels[k - 1]);
    }
  }

  lemma NobodySleeps(s: State)
    requires Init(s)
    ensures SleepInv(s) && Calm(s)
  {
  }

  /** In every interleaving: whenever the lock is free, a pipewrite sleeps only on a full ring that has a reader. */
  lemma WritersSleepOnFullRing(run: seq<State>, labels: seq<Label>, k: nat, c: nat)
    requires IsRun(run, labels) && k < |run| && run[k].lock == None && c in run[k].asleep && c < |run[k].calls|
             && run[k].calls[c].Writing?
    ensures run[k].readopen && run[k].ring.Full()
  {
    RunKeepsSleepers(run, labels, k);
  }

  /** A piperead sleeps only on an empty ring that has a writer, or on one into which a writer is just storing. */
  ghost predicate Calm(s: State) { ReaderAsleep(s) ==> s.writeopen && (s.ring.Empty() || Storing(s)) }

  /** A pipewrite that gives up on a full ring does not wake the readers. */
  ghost predicate Deserts(s: State, l: Label) { l.FailFull? && ReaderAsleep(s) }

  /** That is the one step after which a piperead sleeps although the lock is free and there are bytes. */
  lemma StepKeepsCalmIff(s: State, t: State, l: Label)
    requires SleepInv(s) && Calm(s) && Step(s, t, l)
    ensures Calm(t) <==> !Deserts(s, l)
  {
    hide Ring.Put, Ring.Drop, Ring.Front, Ring.Valid;
    if ReaderAsleep(t) && !l.SleepEmpty? {
      var c :| c in t.asleep && c < |t.calls| && t.calls[c].ReadWaiting?;
      assert c in s.asleep && c < |s.calls| && s.calls[c].ReadWaiting?;
    }
    if Deserts(s, l) {
      var c :| c in s.asleep && c < |s.calls| && s.calls[c].ReadWaiting?;
      assert c in t.asleep && t.calls[c].ReadWaiting?;
    }
  }

  /** In every interleaving: no piperead sleeps on a ring with bytes while the lock is free, at any moment, exactly if no
      pipewrite ever gives up on a full ring while one sleeps. */
  lemma CalmIff(run: seq<State>, labels: seq<Label>)
    requires IsRun(run, labels)
    ensures (forall k :: 0 <= k < |run| ==> Calm(run[k])) <==> (forall k :: 0 <= k < |labels| ==> !Deserts(run[k], labels[k]))
  {
    hide Step, Calm, Deserts, SleepInv;
    if forall k :: 0 <= k < |labels| ==> !Deserts(run[k], labels[k]) {
      forall k | 0 <= k < |run| ensures Calm(run[k]) {
        StaysCalm(run, labels, k);
      }
    }
    if forall k :: 0 <= k < |run| ==> Calm(run[k]) {
      forall k | 0 <= k < |labels| ensures !Deserts(run[k], labels[k]) {
        RunKeepsSleepers(run, labels, k);
        StepKeepsCalmIff(run[k], run[k + 1], labels[k]);
      }
    }
  }

  lemma {:induction false} StaysCalm(run: seq<State>, labels: seq<Label>, k: nat)
    requires IsRun(run, labels) && k < |run| && forall j :: 0 <= j < |labels| ==> !Deserts(run[j], labels[j])
    ensures Calm(run[k])
  {
    hide Step, Calm, Deserts, SleepInv;
    if k == 0 {
      NobodySleeps(run[0]);
    } else {
      StaysCalm(run, labels, k - 1);
      RunKeepsSleepers(run, labels, k - 1);
      StepKeepsCalmIff(run[k - 1], run[k], labels[k - 1]);
    }
  }

  lemma ExtendRun(run: seq<State>, labels: seq<Label>, t: State, l: Label)
    requires IsRun(run, labels) && Step(Final(run), t, l)
    ensures IsRun(run + [t], labels + [l])
  {
    hide Step;
  }

  /** A piperead sleeps, and a pipewrite has stored j bytes. */
  ghost predicate Filling(s: State, src: seq<Byte>, j: nat)
  {
    && s.ring.Valid() && s.ring.Count() == j <= |src| && s.readopen && s.writeopen && s.lock == Some(1) && s.asleep == {0}
    && s.calls == [ReadWaiting(1), Writing(src, j)]
  }

  lemma FillOne(s: State, src: seq<Byte>, j: nat) returns (t: State)
    requires Filling(s, src, j) && j < PIPESIZE && j < |src|
    ensures Step(s, t, PutByte(1)) && Filling(t, src, j + 1)
  {
    hide Ring.Count;
    CountFacts(s.ring);
    CountAfterPut(s.ring, src[j]);
    t := s.(ring := s.ring.Put(src[j]), calls := s.calls[1 := Writing(src, j + 1)], accepted := s.accepted + [Sent(1, src[j])]);
  }

  lemma {:induction false} FillUp(run0: seq<State>, labels0: seq<Label>, src: seq<Byte>, j: nat)
    returns (run: seq<State>, labels: seq<Label>)
    requires IsRun(run0, labels0) && Filling(Final(run0), src, 0) && j <= PIPESIZE && j <= |src|
    ensures IsRun(run, labels) && run[0] == run0[0] && Filling(Final(run), src, j)
  {
    hide Step, Filling;
    if j == 0 {
      run, labels := run0, labels0;
    } else {
      run, labels := FillUp(run0, labels0, src, j - 1);
      var t := FillOne(Final(run), src, j - 1);
      ExtendRun(run, labels, t, PutByte(1));
      run, labels := run + [t], labels + [PutByte(1)];
    }
  }

  /** The steps before: a piperead finds the ring empty and sleeps, a pipewrite begins. */
  lemma ReaderSleepsFirst(s: State, src: seq<Byte>) returns (run: seq<State>, labels: seq<Label>)
    requires Init(s)
    ensures IsRun(run, labels) && run[0] == s && Filling(Final(run), src, 0)
  {
    var s1 := s.(calls := [ReadWaiting(1)]);
    var s2 := s1.(lock := Some(0));
    var s3 := s1.(asleep := {0});
    var s4 := s3.(calls := [ReadWaiting(1), Writing(src, 0)]);
    var s5 := s4.(lock := Some(1));
    assert Step(s, s1, Start(ReadWaiting(1))) && Step(s1, s2, Acquire(0));
    assert Step(s2, s3, SleepEmpty(0));
    assert Step(s3, s4, Start(Writing(src, 0)));
    assert Step(s4, s5, Acquire(1));
    run := [s, s1, s2, s3, s4, s5];
    labels := [Start(ReadWaiting(1)), Acquire(0), SleepEmpty(0), Start(Writing(src, 0)), Acquire(1)];
    CountFacts(s.ring);
    hide Step;
  }

  /** A killed pipewrite of more than PIPESIZE bytes, on its own, leaves a piperead asleep beside a full ring. */
  lemma DesertedReader(s: State, src: seq<Byte>) returns (run: seq<State>, labels: seq<Label>)
    requires Init(s) && |src| > PIPESIZE
    ensures IsRun(run, labels) && run[0] == s && var t := Final(run);
            && t.ring.Valid() && |t.ring.Contents()| == PIPESIZE && t.lock == None && t.writeopen
            && 0 in t.asleep && |t.calls| > 0 && t.calls[0] == ReadWaiting(1)
  {
    run, labels := ReaderSleepsFirst(s, src);
    run, labels := FillUp(run, labels, src, PIPESIZE);
    var t := Final(run);
    CountFacts(t.ring);
    var t' := t.(lock := None, calls := t.calls[1 := Wrote(src, PIPESIZE, -1)]);
    assert Step(t, t', FailFull(1, true));
    hide Step;
    ExtendRun(run, labels, t', FailFull(1, true));
    run, labels := run + [t'], labels + [FailFull(1, true)];
  }
}
