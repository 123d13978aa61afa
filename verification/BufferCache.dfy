/** The buffer cache (src/bio.c): an array of buffers threaded on a circular,
    doubly linked list from most to least recently used. Buffers are named by
    their index; the list head has the index after the last buffer. Each method
    is a stretch of code that runs without interference, under bcache.lock or
    under the buffer's own lock. */
module BufferCache {

  import opened Common

  type Block = seq<nat>

  datatype Buf = Buf(dev: nat, blockno: nat, refcnt: nat, valid: bool, dirty: bool, data: Block) {

    predicate Is(d: nat, n: nat) { dev == d && blockno == n }

    /** What bget may recycle. */
    predicate Unused() { refcnt == 0 && !dirty }
  }

  // ---- The ring ---------------------------------------------------------------------------------------

  ghost predicate Distinct(ring: seq<nat>)
  {
    forall i, j :: 0 <= i < j < |ring| ==> ring[i] != ring[j]
  }

  /** The i-th element of the ring counted from the head, which is at both ends. */
  function Nth(head: nat, ring: seq<nat>, i: int): nat
    requires -1 <= i <= |ring|
  {
    if i < 0 || i == |ring| then head else ring[i]
  }

  /** The links lead from the head through the ring in order and back, forwards and backwards. */
  ghost predicate Linked(head: nat, next: seq<nat>, prev: seq<nat>, ring: seq<nat>)
  {
    && |next| == |prev| == head + 1 && Distinct(ring)
    && (forall i :: 0 <= i < |ring| ==> ring[i] < head)
    && (forall i :: -1 <= i < |ring| ==> next[Nth(head, ring, i)] == Nth(head, ring, i + 1))
    && (forall i :: 0 <= i <= |ring| ==> prev[Nth(head, ring, i)] == Nth(head, ring, i - 1))
  }

  /** A buffer that is in no list is put in front. */
  lemma PushFront(head: nat, next: seq<nat>, prev: seq<nat>, ring: seq<nat>, b: nat)
    requires Linked(head, next, prev, ring) && b < head && b !in ring
    ensures |next| == |prev| == head + 1 && next[head] <= head
    ensures var next1, prev1 := next[b := next[head]], prev[b := head];
            Linked(head, next1[head := b], prev1[next1[head] := b], [b] + ring)
  {
    assert next[Nth(head, ring, -1)] == Nth(head, ring, 0);
    var next', prev' := next[b := next[head]][head := b], prev[b := head][next[head] := b];
    var ring' := [b] + ring;
    forall i | -1 <= i < |ring'| ensures next'[Nth(head, ring', i)] == Nth(head, ring', i + 1) {
      if i > 0 {
        assert next[Nth(head, ring, i - 1)] == Nth(head, ring, i);
      }
    }
    forall i | 0 <= i <= |ring'| ensures prev'[Nth(head, ring', i)] == Nth(head, ring', i - 1) {
      if i > 0 {
        assert prev[Nth(head, ring, i - 1)] == Nth(head, ring, i - 2);
      }
    }
  }

  function Without(ring: seq<nat>, k: nat): seq<nat>
    requires k < |ring|
  {
    ring[..k] + ring[k + 1..]
  }

  lemma NthWithout(head: nat, ring: seq<nat>, k: nat, i: int)
    requires k < |ring| && -1 <= i <= |ring| - 1
    ensures Nth(head, Without(ring, k), i) == Nth(head, ring, if i < k then i else i + 1)
  {
  }

  /** Positions name different elements. */
  lemma NthDiffer(head: nat, next: seq<nat>, prev: seq<nat>, ring: seq<nat>, i: int, j: int)
    requires Linked(head, next, prev, ring) && -1 <= i < j <= |ring| && !(i == -1 && j == |ring|)
    ensures Nth(head, ring, i) != Nth(head, ring, j)
    ensures Nth(head, ring, i) <= head && Nth(head, ring, j) <= head
  {
  }

  lemma UnlinkNext(head: nat, next: seq<nat>, prev: seq<nat>, ring: seq<nat>, k: nat, i: int)
    requires Linked(head, next, prev, ring) && k < |ring| && -1 <= i < |ring| - 1
    ensures Nth(head, ring, k - 1) < |next| && Nth(head, Without(ring, k), i) < |next|
    ensures next[Nth(head, ring, k - 1) := Nth(head, ring, k + 1)][Nth(head, Without(ring, k), i)] ==
            Nth(head, Without(ring, k), i + 1)
  {
    hide Nth, Distinct;
    NthWithout(head, ring, k, i);
    NthWithout(head, ring, k, i + 1);
    NthDiffer(head, next, prev, ring, k - 1, k);
    if i < k - 1 {
      NthDiffer(head, next, prev, ring, i, k - 1);
    } else if i >= k {
      NthDiffer(head, next, prev, ring, k - 1, i + 1);
    }
  }

  lemma UnlinkPrev(head: nat, next: seq<nat>, prev: seq<nat>, ring: seq<nat>, k: nat, i: int)
    requires Linked(head, next, prev, ring) && k < |ring| && 0 <= i <= |ring| - 1
    ensures Nth(head, ring, k + 1) < |prev| && Nth(head, Without(ring, k), i) < |prev|
    ensures prev[Nth(head, ring, k + 1) := Nth(head, ring, k - 1)][Nth(head, Without(ring, k), i)] ==
            Nth(head, Without(ring, k), i - 1)
  {
    hide Nth, Distinct;
    NthWithout(head, ring, k, i);
    NthWithout(head, ring, k, i - 1);
    NthDiffer(head, next, prev, ring, k, k + 1);
    if i < k {
      NthDiffer(head, next, prev, ring, i, k + 1);
    } else if i > k {
      NthDiffer(head, next, prev, ring, k + 1, i + 1);
    }
  }

  /** Unlinking the k-th buffer of the ring: its neighbours point at each other. */
  lemma Unlink(head: nat, next: seq<nat>, prev: seq<nat>, ring: seq<nat>, k: nat)
    requires Linked(head, next, prev, ring) && k < |ring|
    ensures |next| == |prev| == head + 1 && ring[k] < head
    ensures var b := ring[k]; next[b] <= head && prev[b] <= head && next[b] != b
    ensures var b := ring[k];
            Linked(head, next[prev[b] := next[b]], prev[next[b] := prev[b]], Without(ring, k))
  {
    var b, ring' := ring[k], Without(ring, k);
    assert next[Nth(head, ring, k)] == Nth(head, ring, k + 1) && prev[Nth(head, ring, k)] == Nth(head, ring, k - 1);
    NthDiffer(head, next, prev, ring, k, k + 1);
    NthDiffer(head, next, prev, ring, k - 1, k);
    hide Nth;
    forall i | -1 <= i < |ring'| ensures next[prev[b] := next[b]][Nth(head, ring', i)] == Nth(head, ring', i + 1) {
      UnlinkNext(head, next, prev, ring, k, i);
    }
    forall i | 0 <= i <= |ring'| ensures prev[next[b] := prev[b]][Nth(head, ring', i)] == Nth(head, ring', i - 1) {
      UnlinkPrev(head, next, prev, ring, k, i);
    }
  }

  // ---- The whole cache -------------------------------------------------------------------------------------

  /** The ring holds every buffer, in the order in which they were last released, latest first. */
  ghost predicate RingOk(head: nat, ring: seq<nat>, stamp: seq<nat>, now: nat)
  {
    && |stamp| == head
    && (forall i :: 0 <= i < |ring| ==> ring[i] < head)
    && (forall b: nat :: b < head ==> b in ring && stamp[b] < now)
    && (forall i, j :: 0 <= i < j < |ring| ==> stamp[ring[i]] > stamp[ring[j]])
  }

  /** At most one buffer for a block of a real device. */
  ghost predicate Unique(buf: seq<Buf>)
  {
    forall i, j :: 0 <= i < j < |buf| && buf[i].dev != 0 ==> !buf[j].Is(buf[i].dev, buf[i].blockno)
  }

  /** References are counted, a locked buffer is referenced, and what is valid, clean and not being edited is on disk. */
  ghost predicate BufOk(b: Buf, holder: Option<nat>, refs: multiset<nat>, edited: bool, disk: map<(nat, nat), Block>)
  {
    && b.refcnt == |refs|
    && (holder.Some? ==> holder.value in refs)
    && (edited ==> holder.Some?)
    && (b.valid && !b.dirty && !edited ==> (b.dev, b.blockno) in disk && b.data == disk[(b.dev, b.blockno)])
  }

  lemma WithoutAt(ring: seq<nat>, k: nat, i: nat)
    requires k < |ring| && i < |ring| - 1
    ensures |Without(ring, k)| == |ring| - 1 && Without(ring, k)[i] == ring[if i < k then i else i + 1]
  {
  }

  lemma FrontHasAll(ring: seq<nat>, k: nat, c: nat)
    requires k < |ring| && c in ring
    ensures c in [ring[k]] + Without(ring, k)
  {
    var i :| 0 <= i < |ring| && ring[i] == c;
    var ring' := [ring[k]] + Without(ring, k);
    if i < k {
      assert ring'[i + 1] == c;
    } else if i > k {
      assert ring'[i] == c;
    }
  }

  lemma FrontAt(ring: seq<nat>, k: nat, i: nat)
    requires k < |ring| && i < |ring|
    ensures |[ring[k]] + Without(ring, k)| == |ring|
    ensures ([ring[k]] + Without(ring, k))[i] == ring[Was(k, i)]
  {
  }

  /** Where the i-th buffer of the new ring was. */
  function Was(k: nat, i: nat): nat { if i == 0 then k else if i - 1 < k then i - 1 else i }

  lemma FrontOrder(head: nat, ring: seq<nat>, stamp: seq<nat>, now: nat, k: nat, i: nat, j: nat)
    requires RingOk(head, ring, stamp, now) && k < |ring| && i < j < |ring|
    ensures |stamp| == head && ring[k] < head && ring[Was(k, i)] < head && ring[Was(k, j)] < head && ring[Was(k, j)] != ring[k]
    ensures stamp[ring[k] := now][ring[Was(k, i)]] > stamp[ring[k] := now][ring[Was(k, j)]]
  {
    var x, y := Was(k, i), Was(k, j);
    assert x != y && y != k;
    assert stamp[ring[y]] < now;
    if y < k {
      assert stamp[ring[y]] > stamp[ring[k]];
    } else {
      assert stamp[ring[k]] > stamp[ring[y]];
    }
  }

  /** Release of the k-th buffer: it moves to the front and gets a new stamp. */
  lemma ToFront(head: nat, ring: seq<nat>, stamp: seq<nat>, now: nat, k: nat)
    requires RingOk(head, ring, stamp, now) && k < |ring|
    ensures |stamp| == head && ring[k] < head
    ensures RingOk(head, [ring[k]] + Without(ring, k), stamp[ring[k] := now], now + 1)
    ensures ring[k] !in Without(ring, k)
  {
    hide Without;
    var rest := Without(ring, k);
    var ring', stamp' := [ring[k]] + rest, stamp[ring[k] := now];
    FrontAt(ring, k, 0);
    forall c: nat | c < head ensures c in ring' {
      FrontHasAll(ring, k, c);
    }
    forall i | 0 <= i < |ring'| ensures ring'[i] == ring[Was(k, i)] && ring'[i] < head {
      FrontAt(ring, k, i);
    }
    forall i, j | 0 <= i < j < |ring'| ensures stamp'[ring'[i]] > stamp'[ring'[j]] && ring'[j] != ring[k] {
      FrontOrder(head, ring, stamp, now, k, i, j);
    }
    forall i | 0 <= i < |rest| ensures rest[i] != ring[k] {
      assert rest[i] == ring'[i + 1];
    }
  }

  class BufferCache {
    const nbuf: nat
    var buf: seq<Buf>
    var next: seq<nat>              // of each buffer and of the head
    var prev: seq<nat>
    var holder: seq<Option<nat>>    // who has the buffer's sleep lock
    var disk: map<(nat, nat), Block>

    ghost var ring: seq<nat>               // from head.next to head.prev
    ghost var refs: seq<multiset<nat>>     // the processes between bget and the end of brelse
    ghost var edited: seq<bool>            // changed by the holder and not yet written or logged
    ghost var stamp: seq<nat>              // when the buffer was last put in front
    ghost var now: nat

    ghost predicate Valid()
      reads this
    {
      && |buf| == |holder| == |refs| == |edited| == nbuf
      && Linked(nbuf, next, prev, ring) && RingOk(nbuf, ring, stamp, now) && Unique(buf)
      && forall b :: 0 <= b < nbuf ==> BufOk(buf[b], holder[b], refs[b], edited[b], disk)
    }

    /** binit: every buffer is on the ring; none holds a block of a device. */
    constructor (nbuf: nat, disk: map<(nat, nat), Block>)
      ensures Valid() && this.nbuf == nbuf && this.disk == disk
      ensures forall b :: 0 <= b < nbuf ==> buf[b] == Buf(0, 0, 0, false, false, []) && holder[b] == None && refs[b] == multiset{}
    {
      this.nbuf := nbuf;
      this.disk := disk;
      buf := seq(nbuf, i => Buf(0, 0, 0, false, false, []));
      holder := seq(nbuf, i => None);
      refs := seq(nbuf, i => multiset{});
      edited := seq(nbuf, i => false);
      stamp := seq(nbuf, i => i);
      now := nbuf;
      var n, p := InitRing(nbuf);
      DescendingOk(nbuf);
      next, prev, ring := n, p, Descending(nbuf);
    }

    /** Looking through the list from the front: the buffer for the block, or the head. */
    method FindCached(dev: nat, blockno: nat) returns (b: nat)
      requires Valid()
      ensures b <= nbuf && (b < nbuf ==> buf[b].Is(dev, blockno))
      ensures b == nbuf ==> forall c :: 0 <= c < nbuf ==> !buf[c].Is(dev, blockno)
    {
      hide Unique, BufOk;
      ghost var i := 0;
      LinkNext(nbuf, next, prev, ring, -1);
      b := next[nbuf];
      while b != nbuf
        invariant 0 <= i <= |ring| && b == Nth(nbuf, ring, i)
        invariant forall j :: 0 <= j < i ==> !buf[ring[j]].Is(dev, blockno)
        decreases |ring| - i
      {
        if buf[b].dev == dev && buf[b].blockno == blockno {
          return;
        }
        LinkNext(nbuf, next, prev, ring, i);
        b := next[b];
        i := i + 1;
      }
      forall c | 0 <= c < nbuf ensures !buf[c].Is(dev, blockno) {
        assert c in ring;
      }
    }

    /** Looking through the list from the back: the least recently released buffer that may be recycled, or the head. */
    method FindUnused() returns (b: nat)
      requires Valid()
      ensures b <= nbuf && (b < nbuf ==> buf[b].Unused())
      ensures b < nbuf ==> forall c :: 0 <= c < nbuf && buf[c].Unused() ==> stamp[b] <= stamp[c]
      ensures b == nbuf ==> forall c :: 0 <= c < nbuf ==> !buf[c].Unused()
    {
      hide Unique, BufOk;
      ghost var i := |ring| - 1;
      LinkPrev(nbuf, next, prev, ring, |ring|);
      b := prev[nbuf];
      while b != nbuf
        invariant -1 <= i < |ring| && b == Nth(nbuf, ring, i)
        invariant forall j :: i < j < |ring| ==> !buf[ring[j]].Unused()
        decreases i + 1
      {
        if buf[b].refcnt == 0 && !buf[b].dirty {
          forall c | 0 <= c < nbuf && buf[c].Unused() ensures stamp[b] <= stamp[c] {
            assert c in ring;
          }
          return;
        }
        LinkPrev(nbuf, next, prev, ring, i);
        b := prev[b];
        i := i - 1;
      }
      forall c | 0 <= c < nbuf ensures !buf[c].Unused() {
        assert c in ring;
      }
    }

    /** bget, up to the release of bcache.lock, by process `pid`; None is the panic "no buffers". */
    method Bget(dev: nat, blockno: nat, pid: nat) returns (r: Option<nat>)
      requires Valid()
      modifies this`buf, this`refs
      ensures Valid()
      ensures r.Some? ==> r.value < nbuf && buf[r.value].dev == dev && buf[r.value].blockno == blockno && pid in refs[r.value]
      ensures var cached := exists c :: 0 <= c < nbuf && old(buf)[c].dev == dev && old(buf)[c].blockno == blockno;
              && (cached ==> r.Some? && buf == old(buf)[r.value := old(buf)[r.value].(refcnt := old(buf)[r.value].refcnt + 1)])
              && (!cached && r.Some? ==>
                    && old(buf)[r.value].refcnt == 0 && !old(buf)[r.value].dirty
                       && buf == old(buf)[r.value := Buf(dev, blockno, 1, false, false, old(buf)[r.value].data)]
                    && forall c :: 0 <= c < nbuf && old(buf)[c].refcnt == 0 && !old(buf)[c].dirty ==> stamp[r.value] <= stamp[c])
              && (r == None <==> !cached && forall c :: 0 <= c < nbuf ==> old(buf)[c].refcnt > 0 || old(buf)[c].dirty)
      ensures r == None ==> buf == old(buf) && refs == old(refs)
      ensures r.Some? ==> refs == old(refs)[r.value := old(refs)[r.value] + multiset{pid}]
    {
      hide Linked, RingOk;
      var b := FindCached(dev, blockno);
      if b != nbuf {
        assert buf[b].Is(dev, blockno);
        buf := buf[b := buf[b].(refcnt := buf[b].refcnt + 1)];
        refs := refs[b := refs[b] + multiset{pid}];
        return Some(b);
      }
      b := FindUnused();
      if b != nbuf {
        NobodyHasUnused(buf[b], holder[b], refs[b], edited[b], disk);
        buf := buf[b := Buf(dev, blockno, 1, false, false, buf[b].data)];
        refs := refs[b := refs[b] + multiset{pid}];
        return Some(b);
      }
      return None;
    }

    /** acquiresleep(&b->lock), at the moment it gets the lock. */
    method Lock(b: nat, pid: nat)
      requires Valid() && b < nbuf && pid in refs[b] && holder[b] == None
      modifies this`holder
      ensures Valid() && holder == old(holder)[b := Some(pid)]
    {
      hide Linked, RingOk, Unique;
      holder := holder[b := Some(pid)];
    }

    /** The second half of bread: what is not valid is read from disk. Afterwards the holder sees the block. */
    method Fill(b: nat, pid: nat)
      requires Valid() && b < nbuf && holder[b] == Some(pid) && !edited[b] && (buf[b].dev, buf[b].blockno) in disk
      modifies this`buf
      ensures Valid() && (forall c :: 0 <= c < nbuf && c != b ==> buf[c] == old(buf)[c])
      ensures buf[b].valid && buf[b].Is(old(buf)[b].dev, old(buf)[b].blockno)
      ensures !(old(buf)[b].valid && buf[b].dirty) ==> buf[b].data == disk[(buf[b].dev, buf[b].blockno)]
      ensures old(buf)[b].valid ==> buf == old(buf)
    {
      hide Linked, RingOk;
      if !buf[b].valid {
        buf := buf[b := buf[b].(valid := true, dirty := false, data := disk[(buf[b].dev, buf[b].blockno)])];
      }
    }

    /** The holder changes the data; it owes a bwrite or a log_write before brelse. */
    method Edit(b: nat, pid: nat, data: Block)
      requires Valid() && b < nbuf && holder[b] == Some(pid)
      modifies this`buf, this`edited
      ensures Valid() && buf == old(buf)[b := old(buf)[b].(data := data)] && edited == old(edited)[b := true]
    {
      hide Linked, RingOk;
      buf := buf[b := buf[b].(data := data)];
      edited := edited[b := true];
    }

    /** What log_write does to the buffer: it stays in the cache until it is written. */
    method Pin(b: nat, pid: nat)
      requires Valid() && b < nbuf && holder[b] == Some(pid)
      modifies this`buf, this`edited
      ensures Valid() && buf == old(buf)[b := old(buf)[b].(dirty := true)] && edited == old(edited)[b := false]
    {
      hide Linked, RingOk;
      buf := buf[b := buf[b].(dirty := true)];
      edited := edited[b := false];
    }

    /** bwrite; ok is false for the panic. The block is on disk and the buffer is clean. */
    method Bwrite(b: nat, pid: nat) returns (ok: bool)
      requires Valid() && b < nbuf && buf[b].dev != 0
      modifies this`buf, this`edited, this`disk
      ensures Valid() && (ok <==> holder[b] == Some(pid))
      ensures !ok ==> buf == old(buf) && disk == old(disk) && edited == old(edited)
      ensures ok ==> && disk == old(disk)[(buf[b].dev, buf[b].blockno) := old(buf)[b].data]
                     && buf == old(buf)[b := old(buf)[b].(valid := true, dirty := false)] && edited == old(edited)[b := false]
    {
      hide Linked, RingOk;
      if holder[b] != Some(pid) {
        return false;
      }
      ghost var x := buf[b];
      forall c | 0 <= c < nbuf && c != b ensures !buf[c].Is(x.dev, x.blockno) {
        assert buf[c].dev != 0 ==>
            if c < b then !buf[b].Is(buf[c].dev, buf[c].blockno) else !buf[c].Is(buf[b].dev, buf[b].blockno);
      }
      disk := disk[(buf[b].dev, buf[b].blockno) := buf[b].data];
      buf := buf[b := buf[b].(valid := true, dirty := false)];
      edited := edited[b := false];
      return true;
    }

    /** The first half of brelse, releasesleep; ok is false for the panic. */
    method Unlock(b: nat, pid: nat) returns (ok: bool)
      requires Valid() && b < nbuf && !edited[b]
      modifies this`holder
      ensures Valid() && (ok <==> old(holder)[b] == Some(pid))
      ensures holder == if ok then old(holder)[b := None] else old(holder)
    {
      hide Linked, RingOk, Unique;
      if holder[b] != Some(pid) {
        return false;
      }
      holder := holder[b := None];
      return true;
    }

    /** The second half of brelse, under bcache.lock: the last reference moves the buffer to the front of the list. */
    method Unref(b: nat, pid: nat)
      requires Valid() && b < nbuf && pid in refs[b] && (holder[b] == Some(pid) ==> refs[b][pid] > 1)
      modifies this`buf, this`refs, this`next, this`prev, this`ring, this`stamp, this`now
      ensures Valid() && refs == old(refs)[b := old(refs)[b] - multiset{pid}]
      ensures buf == old(buf)[b := old(buf)[b].(refcnt := old(buf)[b].refcnt - 1)]
      ensures buf[b].refcnt > 0 ==> ring == old(ring) && stamp == old(stamp) && now == old(now)
      ensures buf[b].refcnt == 0 ==> stamp == old(stamp)[b := old(now)] && now == old(now) + 1
      ensures buf[b].refcnt == 0 ==> exists k :: 0 <= k < |old(ring)| && old(ring)[k] == b && ring == [b] + Without(old(ring), k)
    {
      hide Linked, RingOk, Unique, BufOk, Without;
      assert BufOk(buf[b], holder[b], refs[b], edited[b], disk);
      DropRef(buf[b], holder[b], refs[b], edited[b], disk, pid);
      UniqueStill(buf, b, buf[b].(refcnt := buf[b].refcnt - 1));
      buf := buf[b := buf[b].(refcnt := buf[b].refcnt - 1)];
      refs := refs[b := refs[b] - multiset{pid}];
      if buf[b].refcnt == 0 {
        MoveToFront(b);
      }
    }

    /** The relinking in brelse. */
    method MoveToFront(b: nat)
      requires Linked(nbuf, next, prev, ring) && RingOk(nbuf, ring, stamp, now) && b < nbuf
      modifies this`next, this`prev, this`ring, this`stamp, this`now
      ensures Linked(nbuf, next, prev, ring) && RingOk(nbuf, ring, stamp, now)
      ensures |old(stamp)| == nbuf && stamp == old(stamp)[b := old(now)] && now == old(now) + 1
      ensures exists k :: 0 <= k < |old(ring)| && old(ring)[k] == b && ring == [b] + Without(old(ring), k)
    {
      hide Linked, RingOk, Without;
      ghost var k := FindInRing(nbuf, ring, stamp, now, b);
      Unlink(nbuf, next, prev, ring, k);
      ToFront(nbuf, ring, stamp, now, k);
      prev := prev[next[b] := prev[b]];
      next := next[prev[b] := next[b]];
      PushFront(nbuf, next, prev, Without(ring, k), b);
      next := next[b := next[nbuf]];
      prev := prev[b := nbuf];
      prev := prev[next[nbuf] := b];
      next := next[nbuf := b];
      stamp := stamp[b := now];
      now := now + 1;
      ring := [b] + Without(ring, k);
    }
  }

  lemma DropRef(b: Buf, holder: Option<nat>, refs: multiset<nat>, edited: bool, disk: map<(nat, nat), Block>, pid: nat)
    requires BufOk(b, holder, refs, edited, disk) && pid in refs && (holder == Some(pid) ==> refs[pid] > 1)
    ensures b.refcnt > 0 && BufOk(b.(refcnt := b.refcnt - 1), holder, refs - multiset{pid}, edited, disk)
  {
  }

  lemma UniqueStill(buf: seq<Buf>, b: nat, x: Buf)
    requires Unique(buf) && b < |buf| && x.dev == buf[b].dev && x.blockno == buf[b].blockno
    ensures Unique(buf[b := x])
  {
  }

  lemma FindInRing(head: nat, ring: seq<nat>, stamp: seq<nat>, now: nat, b: nat) returns (k: nat)
    requires RingOk(head, ring, stamp, now) && b < head
    ensures k < |ring| && ring[k] == b
  {
    assert b in ring;
    k :| 0 <= k < |ring| && ring[k] == b;
  }

  lemma LinkNext(head: nat, next: seq<nat>, prev: seq<nat>, ring: seq<nat>, i: int)
    requires Linked(head, next, prev, ring) && -1 <= i < |ring|
    ensures Nth(head, ring, i) <= head && next[Nth(head, ring, i)] == Nth(head, ring, i + 1)
  {
  }

  lemma LinkPrev(head: nat, next: seq<nat>, prev: seq<nat>, ring: seq<nat>, i: int)
    requires Linked(head, next, prev, ring) && 0 <= i <= |ring|
    ensures Nth(head, ring, i) <= head && prev[Nth(head, ring, i)] == Nth(head, ring, i - 1)
  {
  }

  lemma NobodyHasUnused(b: Buf, holder: Option<nat>, refs: multiset<nat>, edited: bool, disk: map<(nat, nat), Block>)
    requires BufOk(b, holder, refs, edited, disk) && b.Unused()
    ensures refs == multiset{} && holder == None && !edited
  {
  }

  /** The ring that binit leaves: the last buffer in front. */
  function Descending(n: nat): seq<nat> { seq<nat>(n, i requires 0 <= i < n => n - 1 - i) }

  lemma DescendingOk(n: nat)
    ensures RingOk(n, Descending(n), seq(n, i => i), n)
  {
    forall c: nat | c < n ensures c in Descending(n) {
      assert Descending(n)[n - 1 - c] == c;
    }
  }

  /** binit's loop: each buffer in turn goes to the front. */
  method InitRing(nbuf: nat) returns (next: seq<nat>, prev: seq<nat>)
    ensures Linked(nbuf, next, prev, Descending(nbuf))
  {
    next := seq(nbuf + 1, i => nbuf);
    prev := seq(nbuf + 1, i => nbuf);
    ghost var ring: seq<nat> := [];
    var b := 0;
    while b < nbuf
      invariant 0 <= b <= nbuf && |ring| == b && Linked(nbuf, next, prev, ring)
      invariant forall i :: 0 <= i < b ==> ring[i] == b - 1 - i
    {
      PushFront(nbuf, next, prev, ring, b);
      next := next[b := next[nbuf]];
      prev := prev[b := nbuf];
      prev := prev[next[nbuf] := b];
      next := next[nbuf := b];
      ring := [b] + ring;
      b := b + 1;
    }
    assert ring == Descending(nbuf);
  }
}
