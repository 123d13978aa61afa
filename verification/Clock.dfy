/** Page encryption and the clock of decrypted pages, over the flat view of one address space: what mencrypt, mdecrypt with its
    second-chance sweep, growth, shrinking and fork do (src/vm.c, src/proc.c, src/exec.c), exactly which steps keep the clock
    exact, and what holds over every run. */
module Clock {
  import opened Frames

  /** A page: its entry and the bytes stored in its frame. */
  datatype Slot = Slot(pte: Pte, bytes: seq<Byte>)

  type Space = seq<Slot>

  function Flip(b: seq<Byte>): seq<Byte> { seq(|b|, i requires 0 <= i < |b| => b[i] ^ 0xFF) }

  /** What the user would read on the page: the bytes decoded by the encryption bit. */
  function Plain(s: Slot): seq<Byte> { if s.pte.e then Flip(s.bytes) else s.bytes }

  lemma FlipTwice(b: seq<Byte>)
    ensures Flip(Flip(b)) == b
  {
    forall i | 0 <= i < |b| ensures Flip(Flip(b))[i] == b[i] {
      XorTwice(b[i]);
    }
  }

  lemma XorTwice(x: Byte)
    ensures (x ^ 0xFF) ^ 0xFF == x && x ^ 0xFF != x
  {
  }

  // ---- mencrypt ----------------------------------------------------------------------------------------------

  /** The check pass: every user page of the range is present or encrypted. */
  predicate Checked(sp: Space, v: nat, n: nat) { forall w :: v <= w < v + n && w < |sp| ==> sp[w].pte.u ==> sp[w].pte.Mapped() }

  /** mencrypt on one page: nothing for a page that is not the user's or is encrypted already. */
  function Enc(s: Slot): Slot
  {
    if !s.pte.u || s.pte.e then s else Slot(s.pte.(a := false, e := true, p := false), Flip(s.bytes))
  }

  function EncRange(sp: Space, v: nat, n: nat): Space
  {
    seq(|sp|, w requires 0 <= w < |sp| => if v <= w < v + n then Enc(sp[w]) else sp[w])
  }

  /** mencrypt: all of the range or nothing. */
  function Mencrypted(sp: Space, v: nat, n: nat): Space { if Checked(sp, v, n) then EncRange(sp, v, n) else sp }

  lemma EncKeepsPlain(s: Slot)
    ensures Plain(Enc(s)) == Plain(s)
  {
    FlipTwice(s.bytes);
  }

  /** mencrypt changes no plaintext. */
  lemma MencryptKeepsPlain(sp: Space, v: nat, n: nat, w: nat)
    requires w < |sp|
    ensures Plain(Mencrypted(sp, v, n)[w]) == Plain(sp[w])
  {
    EncKeepsPlain(sp[w]);
  }

  // ---- The clock -----------------------------------------------------------------------------------------------

  /** nodes[], inClock and currInd of struct proc. A slot of -1 names the last page of the address space, which is the kernel's;
      `top` is the accessed bit of that page. */
  datatype Ck = Ck(nodes: seq<int>, inClock: nat, currInd: nat, top: bool)

  /** What mdecrypt needs of the clock: its stores stay inside nodes[]. */
  predicate Safe(ck: Ck)
  {
    |ck.nodes| == CLOCKSIZE && ck.inClock <= CLOCKSIZE && (0 < ck.inClock < CLOCKSIZE ==> ck.currInd < CLOCKSIZE)
  }

  predicate Distinct(s: seq<int>) { forall i, j :: 0 <= i < j < |s| ==> s[i] != s[j] }

  /** The i-th slot from the hand. */
  function Ring(hand: nat, i: nat): (r: nat)
    ensures r < CLOCKSIZE
  {
    (i + hand) % CLOCKSIZE
  }

  function At(ck: Ck, i: nat): int
    requires |ck.nodes| == CLOCKSIZE
  {
    ck.nodes[Ring(ck.currInd, i)]
  }

  /** Two slots name the same page. */
  predicate Same(sp: Space, x: int, y: int) { x == y || !(0 <= x < |sp| || 0 <= y < |sp|) }

  /** The accessed bit of the page that a slot names. */
  predicate Bit(sp: Space, top: bool, x: int) { if 0 <= x < |sp| then sp[x].pte.a else top }

  function Unaccessed(s: Slot): Slot { Slot(s.pte.(a := false), s.bytes) }

  /** The accessed bits of the first k slots from the hand are cleared. */
  function Swept(sp: Space, ck: Ck, k: nat): (r: (Space, bool))
    requires |ck.nodes| == CLOCKSIZE
    ensures |r.0| == |sp|
  {
    if k == 0 then (sp, ck.top)
    else var x, r := At(ck, k - 1), Swept(sp, ck, k - 1);
         if 0 <= x < |sp| then (r.0[x := Unaccessed(r.0[x])], r.1) else (r.0, false)
  }

  /** The sweep finds the accessed bit of the i-th slot set when it comes there. */
  predicate Used(sp: Space, ck: Ck, i: nat)
    requires |ck.nodes| == CLOCKSIZE
  {
    Bit(Swept(sp, ck, i).0, Swept(sp, ck, i).1, At(ck, i))
  }

  /** How many slots the first sweep passes from its i-th on before it meets one whose accessed bit is clear. */
  function Passed(sp: Space, ck: Ck, i: nat): (k: nat)
    requires |ck.nodes| == CLOCKSIZE && i <= CLOCKSIZE
    ensures i <= k <= CLOCKSIZE && (forall j :: i <= j < k ==> Used(sp, ck, j)) && (k < CLOCKSIZE ==> !Used(sp, ck, k))
    decreases CLOCKSIZE - i
  {
    if i == CLOCKSIZE || !Used(sp, ck, i) then i else Passed(sp, ck, i + 1)
  }

  /** The slot where the sweeps stop. */
  function Victim(sp: Space, ck: Ck): (r: nat)
    requires |ck.nodes| == CLOCKSIZE
    ensures r < CLOCKSIZE
  {
    Ring(ck.currInd, Passed(sp, ck, 0))
  }

  /** The pages after the sweeps, and the accessed bit of the last page of all. mencrypt passes over that page. */
  function Evicted(sp: Space, ck: Ck): Space
    requires |ck.nodes| == CLOCKSIZE
  {
    var x, r := ck.nodes[Victim(sp, ck)], Swept(sp, ck, Passed(sp, ck, 0)).0;
    if x < 0 then r else Mencrypted(r, x, 1)
  }

  function TopSwept(sp: Space, ck: Ck): bool
    requires |ck.nodes| == CLOCKSIZE
  {
    Swept(sp, ck, Passed(sp, ck, 0)).1
  }

  // ---- mdecrypt ------------------------------------------------------------------------------------------------

  /** The flags flipped, without decoding. */
  function Opened(s: Slot): Slot { Slot(s.pte.(e := false, p := true), s.bytes) }

  /** The flags flipped and the bytes decoded through the page's own address, which sets the accessed bit. */
  function Decoded(s: Slot): Slot { Slot(s.pte.(e := false, p := true, a := true), Flip(s.bytes)) }

  predicate Refused(s: Slot) { !s.pte.e || !s.pte.u }

  /** The exit after the flags are flipped and before anything is decoded: the first stored byte is 0. */
  predicate CutShort(s: Slot) { !Refused(s) && |s.bytes| > 0 && s.bytes[0] == 0 }

  predicate Handled(s: Slot) { !Refused(s) && !CutShort(s) }

  function AfterFault(sp: Space, ck: Ck, v: nat): Space
    requires v < |sp| && Safe(ck)
  {
    if Refused(sp[v]) then sp
    else if CutShort(sp[v]) then sp[v := Opened(sp[v])]
    else if ck.inClock < CLOCKSIZE then sp[v := Decoded(sp[v])]
    else Evicted(sp[v := Decoded(sp[v])], ck)
  }

  /** The page v enters the clock, at the hand or in place of the victim. */
  function Entered(sp: Space, ck: Ck, v: nat): Ck
    requires Safe(ck)
  {
    if ck.inClock == 0 then Ck(ck.nodes[0 := v], 1, 1, ck.top)
    else if ck.inClock < CLOCKSIZE then Ck(ck.nodes[ck.currInd := v], ck.inClock + 1, ck.currInd + 1, ck.top)
    else var r := Victim(sp, ck); Ck(ck.nodes[r := v], CLOCKSIZE, (r + 1) % CLOCKSIZE, TopSwept(sp, ck))
  }

  function ClockAfter(sp: Space, ck: Ck, v: nat): Ck
    requires v < |sp| && Safe(ck)
  {
    if Handled(sp[v]) then Entered(sp[v := Decoded(sp[v])], ck, v) else ck
  }

  // ---- The second chance ---------------------------------------------------------------------------------------

  ghost predicate AmongFirst(sp: Space, ck: Ck, k: nat, x: int)
    requires |ck.nodes| == CLOCKSIZE
  {
    exists i: nat :: i < k && Same(sp, At(ck, i), x)
  }

  /** The bit is cleared on exactly the pages of the first k slots. */
  lemma {:induction false} SweptAt(sp: Space, ck: Ck, k: nat, w: nat)
    requires |ck.nodes| == CLOCKSIZE && w < |sp|
    ensures Swept(sp, ck, k).0[w] == if AmongFirst(sp, ck, k, w) then Unaccessed(sp[w]) else sp[w]
  {
    hide At;
    if k > 0 {
      SweptAt(sp, ck, k - 1, w);
      if At(ck, k - 1) == w {
        assert AmongFirst(sp, ck, k, w);
      } else {
        assert AmongFirst(sp, ck, k, w) <==> AmongFirst(sp, ck, k - 1, w);
      }
    }
  }

  lemma {:induction false} SweptTop(sp: Space, ck: Ck, k: nat, x: int)
    requires |ck.nodes| == CLOCKSIZE && !(0 <= x < |sp|)
    ensures Swept(sp, ck, k).1 <==> ck.top && !AmongFirst(sp, ck, k, x)
  {
    hide At;
    if k > 0 {
      SweptTop(sp, ck, k - 1, x);
      if Same(sp, At(ck, k - 1), x) {
        assert AmongFirst(sp, ck, k, x);
      } else {
        assert AmongFirst(sp, ck, k, x) <==> AmongFirst(sp, ck, k - 1, x);
      }
    }
  }

  /** The accessed bit of the i-th slot's page is set, and no slot before it names that page. */
  ghost predicate Chance(sp: Space, ck: Ck, i: nat)
    requires |ck.nodes| == CLOCKSIZE
  {
    Bit(sp, ck.top, At(ck, i)) && !AmongFirst(sp, ck, i, At(ck, i))
  }

  lemma UsedIs(sp: Space, ck: Ck, i: nat)
    requires |ck.nodes| == CLOCKSIZE
    ensures Used(sp, ck, i) <==> Chance(sp, ck, i)
  {
    hide At, Swept, AmongFirst;
    if 0 <= At(ck, i) < |sp| {
      SweptAt(sp, ck, i, At(ck, i));
    } else {
      SweptTop(sp, ck, i, At(ck, i));
    }
  }

  lemma RingWraps(hand: nat)
    ensures Ring(hand, CLOCKSIZE) == Ring(hand, 0) == hand % CLOCKSIZE
  {
  }

  predicate Open(s: Slot) { s.pte.u && !s.pte.e }

  /** With a full clock the victim is the first slot from the hand that gets no second chance, or the hand itself if all do. */
  lemma VictimIs(sp: Space, ck: Ck)
    requires |ck.nodes| == CLOCKSIZE
    ensures var r := Victim(sp, ck);
            || (exists k: nat ::
                  k < CLOCKSIZE && r == Ring(ck.currInd, k) && !Chance(sp, ck, k) && forall j: nat :: j < k ==> Chance(sp, ck, j))
            || (r == ck.currInd % CLOCKSIZE && forall j: nat :: j < CLOCKSIZE ==> Chance(sp, ck, j))
  {
    hide Used, Chance;
    var k := Passed(sp, ck, 0);
    forall j: nat ensures Used(sp, ck, j) <==> Chance(sp, ck, j) {
      UsedIs(sp, ck, j);
    }
    if k < CLOCKSIZE {
      assert Victim(sp, ck) == Ring(ck.currInd, k) && !Chance(sp, ck, k);
    }
  }

  /** The sweeps on every page: the victim's is encrypted, the accessed bit is cleared on exactly the pages passed over, and
      nothing else changes. */
  lemma EvictedAt(sp: Space, ck: Ck, w: nat)
    requires |ck.nodes| == CLOCKSIZE && w < |sp| && Checked(sp, 0, |sp|)
    ensures |Evicted(sp, ck)| == |sp|
    ensures Evicted(sp, ck)[w] == if w == ck.nodes[Victim(sp, ck)] then Enc(Unaccessed(sp[w]))
                                  else if AmongFirst(sp, ck, Passed(sp, ck, 0), w) then Unaccessed(sp[w]) else sp[w]
  {
    hide Swept, AmongFirst, Victim, Passed;
    SweptAt(sp, ck, Passed(sp, ck, 0), w);
    var x := ck.nodes[Victim(sp, ck)];
    if 0 <= x < |sp| {
      VictimUnused(sp, ck);
    }
  }

  /** When the sweeps stop at it, the victim's accessed bit is clear. */
  lemma VictimUnused(sp: Space, ck: Ck)
    requires |ck.nodes| == CLOCKSIZE && 0 <= ck.nodes[Victim(sp, ck)] < |sp|
    ensures var w := ck.nodes[Victim(sp, ck)]; Swept(sp, ck, Passed(sp, ck, 0)).0[w] == Unaccessed(sp[w])
  {
    hide Swept, Passed, Ring;
    var k, w := Passed(sp, ck, 0), ck.nodes[Victim(sp, ck)];
    SweptAt(sp, ck, k, w);
    if k == CLOCKSIZE {
      RingWraps(ck.currInd);
      assert Same(sp, At(ck, 0), w);
    } else {
      assert !Used(sp, ck, k) && At(ck, k) == w;
    }
  }

  // ---- Where the newest page goes ------------------------------------------------------------------------------

  /** The slot just before the hand. */
  function Behind(hand: nat): (r: nat)
    ensures r < CLOCKSIZE
  {
    (hand + CLOCKSIZE - 1) % CLOCKSIZE
  }

  /** A page that has been decrypted is in the slot just before the new hand, and the other slots are as before. While there is
      room the hand moves on by one and the clock grows by one; then it stays full. */
  lemma NewestIsBehindHand(sp: Space, ck: Ck, v: nat)
    requires v < |sp| && Safe(ck) && Handled(sp[v])
    ensures var ck' := ClockAfter(sp, ck, v);
            && |ck'.nodes| == CLOCKSIZE && ck'.nodes[Behind(ck'.currInd)] == v
            && (forall i :: 0 <= i < CLOCKSIZE && i != Behind(ck'.currInd) ==> ck'.nodes[i] == ck.nodes[i])
            && ck'.inClock == (if ck.inClock < CLOCKSIZE then ck.inClock + 1 else CLOCKSIZE)
            && (ck.inClock < CLOCKSIZE ==> ck'.currInd == if ck.inClock == 0 then 1 else ck.currInd + 1)
            && (ck.inClock == CLOCKSIZE ==> ck'.currInd < CLOCKSIZE && Behind(ck'.currInd) == Victim(sp[v := Decoded(sp[v])], ck))
  {
    hide Victim, TopSwept, Handled, Flip;
  }

  /** The sweep of the next fault comes to that page last: it is the victim only if all other slots get their second chance. */
  lemma NewestComesLast(sp: Space, ck: Ck, v: nat, sp2: Space)
    requires v < |sp| && Safe(ck) && Handled(sp[v]) && ck.inClock >= CLOCKSIZE - 1
    ensures var ck' := ClockAfter(sp, ck, v);
            && |ck'.nodes| == CLOCKSIZE == ck'.inClock && At(ck', CLOCKSIZE - 1) == v
            && (Victim(sp2, ck') == Behind(ck'.currInd) ==> forall j: nat :: j < CLOCKSIZE - 1 ==> Chance(sp2, ck', j))
  {
    hide Chance, TopSwept, Handled, Flip, Passed;
    NewestIsBehindHand(sp, ck, v);
    var ck' := ClockAfter(sp, ck, v);
    hide ClockAfter;
    LastOfRing(ck'.currInd);
    VictimIs(sp2, ck');
    if Victim(sp2, ck') == Behind(ck'.currInd) {
      RingIsLast(ck'.currInd);
    }
  }

  lemma LastOfRing(hand: nat)
    ensures Ring(hand, CLOCKSIZE - 1) == Behind(hand) && hand % CLOCKSIZE != Behind(hand)
  {
  }

  lemma RingIsLast(hand: nat)
    ensures forall k: nat :: k < CLOCKSIZE && Ring(hand, k) == Behind(hand) ==> k == CLOCKSIZE - 1
  {
  }

  // ---- Plaintext ---------------------------------------------------------------------------------------------------

  lemma EvictionKeepsPlain(sp: Space, ck: Ck, w: nat)
    requires |ck.nodes| == CLOCKSIZE && w < |sp| && Checked(sp, 0, |sp|)
    ensures |Evicted(sp, ck)| == |sp| && Plain(Evicted(sp, ck)[w]) == Plain(sp[w])
  {
    hide Evicted, Victim, AmongFirst;
    EvictedAt(sp, ck, w);
    EncKeepsPlain(Unaccessed(sp[w]));
  }

  /** Every user page is present or encrypted, never both, and mapped pages have their 4096 bytes. */
  predicate Paged(sp: Space)
  {
    forall w :: 0 <= w < |sp| ==>
        (sp[w].pte.u ==> sp[w].pte.p == !sp[w].pte.e) && (sp[w].pte.Mapped() ==> |sp[w].bytes| == PGSIZE)
  }

  lemma AfterFaultPaged(sp: Space, ck: Ck, v: nat)
    requires Paged(sp) && Safe(ck) && v < |sp|
    ensures |AfterFault(sp, ck, v)| == |sp| && Paged(AfterFault(sp, ck, v))
  {
    hide Evicted, Victim, AmongFirst;
    var sp1 := sp[v := Decoded(sp[v])];
    if Handled(sp[v]) && ck.inClock == CLOCKSIZE {
      DecodedChecked(sp, v);
      EvictedAt(sp1, ck, v);
      forall w | 0 <= w < |sp|
        ensures var t := AfterFault(sp, ck, v)[w];
                (t.pte.u ==> t.pte.p == !t.pte.e) && (t.pte.Mapped() ==> |t.bytes| == PGSIZE)
      {
        EvictedAt(sp1, ck, w);
      }
    }
  }

  /** mencrypt finds every user page mapped once the faulting page is decoded. */
  lemma DecodedChecked(sp: Space, v: nat)
    requires Paged(sp) && v < |sp|
    ensures Checked(sp[v := Decoded(sp[v])], 0, |sp|)
  {
    hide Flip;
  }

  /** A page fault keeps every page's plaintext, unless it takes the exit on a first stored byte of 0: then, and only then,
      the page no longer reads as it should. */
  lemma FaultKeepsPlainIff(sp: Space, ck: Ck, v: nat, w: nat)
    requires Paged(sp) && Safe(ck) && v < |sp| && w < |sp|
    ensures |AfterFault(sp, ck, v)| == |sp|
    ensures Plain(AfterFault(sp, ck, v)[w]) == Plain(sp[w]) <==> !(w == v && CutShort(sp[v]))
  {
    hide Evicted, Victim, Flip;
    AfterFaultPaged(sp, ck, v);
    FlipTwice(sp[v].bytes);
    if CutShort(sp[v]) {
      FlipDiffers(sp[v].bytes);
    } else if Handled(sp[v]) && ck.inClock == CLOCKSIZE {
      DecodedChecked(sp, v);
      EvictionKeepsPlain(sp[v := Decoded(sp[v])], ck, w);
    }
  }

  lemma FlipDiffers(b: seq<Byte>)
    requires |b| > 0
    ensures Flip(b) != b
  {
    XorTwice(b[0]);
    assert Flip(b)[0] == b[0] ^ 0xFF;
  }

  /** A concrete case of it: a page whose plaintext begins with 0xFF. */
  lemma FaultLosesPlaintext()
    ensures var s := Slot(Pte(1, false, true, true, false, true), seq(PGSIZE, i => 0));
            && Paged([s]) && CutShort(s) && Plain(s)[0] == 0xFF
            && Plain(AfterFault([s], Ck(seq(CLOCKSIZE, i => 0), 0, 0, false), 0)[0])[0] == 0
  {
    var s := Slot(Pte(1, false, true, true, false, true), seq(PGSIZE, i => 0));
    assert |Flip(s.bytes)| == PGSIZE;
  }

  // ---- The clock holds exactly the decrypted pages --------------------------------------------------------------------

  function Kept(ck: Ck): seq<int>
    requires ck.inClock <= |ck.nodes|
  {
    ck.nodes[..ck.inClock]
  }

  ghost predicate ClockOk(ck: Ck)
  {
    && |ck.nodes| == CLOCKSIZE && ck.inClock <= CLOCKSIZE
    && (0 < ck.inClock < CLOCKSIZE ==> ck.currInd == ck.inClock) && Distinct(ck.nodes[..ck.inClock])
  }

  /** The user pages without the encryption bit are exactly the pages in the clock. */
  ghost predicate Exact(sp: Space, ck: Ck)
    requires ClockOk(ck)
  {
    && (forall w: nat :: w < |sp| && Open(sp[w]) ==> w in Kept(ck))
    && forall w :: w in Kept(ck) ==> 0 <= w < |sp| && Open(sp[w])
  }

  ghost predicate ClockInv(sp: Space, ck: Ck) { Paged(sp) && ClockOk(ck) && Exact(sp, ck) }

  lemma InvSafe(sp: Space, ck: Ck)
    requires ClockInv(sp, ck)
    ensures Safe(ck)
  {
    hide Paged, Exact;
  }

  lemma AddPage(sp: Space, ck: Ck, v: nat)
    requires ClockInv(sp, ck) && ck.inClock < CLOCKSIZE && v < |sp| && Handled(sp[v])
    ensures Safe(ck) && ClockOk(ClockAfter(sp, ck, v)) && Exact(AfterFault(sp, ck, v), ClockAfter(sp, ck, v))
  {
    hide Paged, Flip;
    InvSafe(sp, ck);
    var sp', ck' := AfterFault(sp, ck, v), ClockAfter(sp, ck, v);
    assert v !in Kept(ck);
    assert Kept(ck') == Kept(ck) + [v];
    AddedDistinct(Kept(ck), v);
  }

  lemma AddedDistinct(s: seq<int>, v: int)
    requires Distinct(s) && v !in s
    ensures Distinct(s + [v])
  {
  }

  lemma ReplacedDistinct(s: seq<int>, r: nat, v: int)
    requires Distinct(s) && v !in s && r < |s|
    ensures Distinct(s[r := v]) && forall w :: w in s[r := v] <==> w == v || (w in s && w != s[r])
  {
    forall w | w in s && w != s[r] ensures w in s[r := v] {
      var i :| 0 <= i < |s| && s[i] == w;
      assert s[r := v][i] == w;
    }
    assert s[r := v][r] == v;
  }

  lemma ReplacePage(sp: Space, ck: Ck, v: nat)
    requires ClockInv(sp, ck) && ck.inClock == CLOCKSIZE && v < |sp| && Handled(sp[v])
    ensures Safe(ck) && ClockOk(ClockAfter(sp, ck, v)) && Exact(AfterFault(sp, ck, v), ClockAfter(sp, ck, v))
  {
    hide Evicted, Victim, AmongFirst, Flip;
    InvSafe(sp, ck);
    var sp1 := sp[v := Decoded(sp[v])];
    var ck', r := ClockAfter(sp, ck, v), Victim(sp1, ck);
    assert Kept(ck) == ck.nodes && Kept(ck') == ck.nodes[r := v];
    assert v !in ck.nodes && ck.nodes[r] in Kept(ck);
    ReplacedDistinct(ck.nodes, r, v);
    DecodedChecked(sp, v);
    AfterFaultPaged(sp, ck, v);
    forall w: nat | w < |sp| ensures Open(AfterFault(sp, ck, v)[w]) <==> w == v || (Open(sp[w]) && w != ck.nodes[r]) {
      EvictedAt(sp1, ck, w);
    }
    var sp' := AfterFault(sp, ck, v);
    forall w | w in Kept(ck') ensures 0 <= w < |sp'| && Open(sp'[w]) {
      assert w == v || w in Kept(ck);
    }
  }

  /** A fault keeps the clock exact, unless it takes the exit on a first stored byte of 0: then, and only then, a page is
      decrypted that the clock does not know. */
  lemma FaultKeepsClockIff(sp: Space, ck: Ck, v: nat)
    requires ClockInv(sp, ck) && v < |sp|
    ensures Safe(ck) && (ClockInv(AfterFault(sp, ck, v), ClockAfter(sp, ck, v)) <==> !CutShort(sp[v]))
  {
    hide Evicted, Victim, Flip, Paged;
    InvSafe(sp, ck);
    AfterFaultPaged(sp, ck, v);
    if CutShort(sp[v]) {
      assert v !in Kept(ck);
      assert Open(AfterFault(sp, ck, v)[v]);
    } else if Handled(sp[v]) {
      if ck.inClock == CLOCKSIZE {
        ReplacePage(sp, ck, v);
      } else {
        AddPage(sp, ck, v);
      }
    }
  }

  // ---- Shrinking --------------------------------------------------------------------------------------------------------

  /** A slot stays in the clock when the pages from n on go. A slot of -1 does not: growproc compares it as an unsigned number. */
  predicate Stays(x: int, n: nat) { 0 <= x < n }

  /** The pages of the clock below page n, in order. */
  function Below(s: seq<int>, n: nat): (r: seq<int>)
    ensures |r| <= |s|
  {
    if s == [] then [] else if Stays(s[0], n) then [s[0]] + Below(s[1..], n) else Below(s[1..], n)
  }

  lemma {:induction false} BelowIs(s: seq<int>, n: nat)
    ensures (Distinct(s) ==> Distinct(Below(s, n))) && forall w :: w in Below(s, n) <==> w in s && 0 <= w < n
  {
    if s != [] {
      assert s == [s[0]] + s[1..];
      assert Distinct(s) ==> s[0] !in s[1..] && Distinct(s[1..]);
      BelowIs(s[1..], n);
    }
  }

  /** In order: what stays of a stretch of slots is what stays of its parts, one after the other. */
  lemma {:induction false} BelowParts(s: seq<int>, t: seq<int>, n: nat)
    ensures Below(s + t, n) == Below(s, n) + Below(t, n)
    ensures forall x: int :: Below([x], n) == if 0 <= x < n then [x] else []
    decreases |s|
  {
    if s == [] {
      assert s + t == t;
    } else {
      assert (s + t)[1..] == s[1..] + t;
      BelowParts(s[1..], t, n);
    }
  }

  /** Where growproc's loop leaves the hand: removing a slot sets it to the new number of slots, but removing the last slot
      does not move it. */
  function Hand(s: seq<int>, n: nat, hand: nat): nat
  {
    var kept := |Below(s, n)|;
    if kept == |s| then hand
    else if Stays(s[|s| - 1], n) then kept
    else if kept + 1 == |s| then hand else kept + 1
  }

  /** The clock once the pages from n on are gone: their slots are taken out, and -1 fills up. */
  function Shrunk(ck: Ck, n: nat): Ck
    requires ck.inClock <= |ck.nodes|
  {
    var s, kept := Kept(ck), Below(Kept(ck), n);
    Ck(kept + seq(|s| - |kept|, i => -1) + ck.nodes[ck.inClock..], |kept|, Hand(s, n, ck.currInd), ck.top)
  }

  /** The address space without its pages from n on. */
  function Cut(sp: Space, n: nat): Space { seq(|sp|, w requires 0 <= w < |sp| => if w < n then sp[w] else Slot(ZERO, [])) }

  lemma ShrunkKept(ck: Ck, n: nat)
    requires ck.inClock <= |ck.nodes|
    ensures |Shrunk(ck, n).nodes| == |ck.nodes| && Shrunk(ck, n).inClock <= ck.inClock
            && Kept(Shrunk(ck, n)) == Below(Kept(ck), n)
    ensures Shrunk(ck, n).inClock < ck.inClock ==> Shrunk(ck, n).nodes[Shrunk(ck, n).inClock] == -1
  {
    hide Below, Hand;
  }

  /** If the clock held exactly the decrypted pages before a shrink, it holds exactly those after. */
  lemma ShrinkKeepsExact(sp: Space, ck: Ck, n: nat, w: int)
    requires ClockInv(sp, ck)
    ensures Shrunk(ck, n).inClock <= |Shrunk(ck, n).nodes|
    ensures w in Kept(Shrunk(ck, n)) <==> 0 <= w < |sp| && Open(Cut(sp, n)[w])
  {
    hide Below, Shrunk, Paged;
    ShrunkKept(ck, n);
    BelowIs(Kept(ck), n);
  }

  /** The hand points behind the last slot again after the shrink: nothing or everything is taken out, or the last slot
      stays, or a full clock loses just its last slot while the hand is there. */
  predicate KeepsHand(ck: Ck, n: nat)
    requires ck.inClock <= |ck.nodes|
  {
    var s, kept := Kept(ck), |Below(Kept(ck), n)|;
    || kept == |s| || kept == 0 || Stays(s[|s| - 1], n)
    || (|s| == CLOCKSIZE && kept == CLOCKSIZE - 1 && ck.currInd == CLOCKSIZE - 1)
  }

  /** A shrink keeps the invariant of the clock exactly if it keeps the hand. */
  lemma ShrinkKeepsClockIff(sp: Space, ck: Ck, n: nat)
    requires ClockInv(sp, ck)
    ensures ClockInv(Cut(sp, n), Shrunk(ck, n)) <==> KeepsHand(ck, n)
  {
    hide Below, Distinct;
    ShrunkKept(ck, n);
    BelowIs(Kept(ck), n);
    var ck' := Shrunk(ck, n);
    assert ClockOk(ck') <==> KeepsHand(ck, n);
    hide Shrunk, KeepsHand, Hand;
    if ClockOk(ck') {
      forall w: int ensures w in Kept(ck') <==> 0 <= w < |sp| && Open(Cut(sp, n)[w]) {
        ShrinkKeepsExact(sp, ck, n, w);
      }
    }
  }

  /** A full clock loses just its last slot while the hand is at its end, where filling it has left it. */
  predicate HandPastEnd(ck: Ck, n: nat)
    requires ck.inClock <= |ck.nodes|
  {
    var s := Kept(ck);
    |s| == CLOCKSIZE && |Below(s, n)| == CLOCKSIZE - 1 && !Stays(s[CLOCKSIZE - 1], n) && ck.currInd >= CLOCKSIZE
  }

  /** Then, and only then, the shrink leaves the hand outside nodes[] with a slot free, so that mdecrypt would store there. */
  lemma ShrinkKeepsSafeIff(ck: Ck, n: nat)
    requires Safe(ck)
    ensures Safe(Shrunk(ck, n)) <==> !HandPastEnd(ck, n)
  {
    hide Below;
    ShrunkKept(ck, n);
  }

  /** After the other shrinks that lose the hand the next page to be decrypted leaves a slot of -1 in the clock. */
  lemma LostHand(sp: Space, ck: Ck, n: nat, v: nat)
    requires ClockInv(sp, ck) && !KeepsHand(ck, n) && !HandPastEnd(ck, n) && v < |sp| && Handled(Cut(sp, n)[v])
    ensures Safe(Shrunk(ck, n))
    ensures var ck' := ClockAfter(Cut(sp, n), Shrunk(ck, n), v); ck'.inClock <= |ck'.nodes| && -1 in Kept(ck')
  {
    hide Below, Distinct, Flip, Handled, Paged;
    ShrunkKept(ck, n);
    InvSafe(sp, ck);
    ShrinkKeepsSafeIff(ck, n);
    var ck1 := Shrunk(ck, n);
    var ck' := ClockAfter(Cut(sp, n), ck1, v);
    assert ck'.nodes[ck1.inClock] == -1;
    assert Kept(ck')[ck1.inClock] == -1;
  }

  // ---- fork --------------------------------------------------------------------------------------------------------------

  /** The child's pages: the same flags and bytes, in other frames. */
  ghost predicate Copies(sp: Space, child: Space)
  {
    && |child| == |sp|
    && forall w :: 0 <= w < |sp| ==> child[w] == Slot(sp[w].pte.(frame := child[w].pte.frame), sp[w].bytes)
  }

  /** The child's clock: the same pages in the slots in use, whatever was in the others, and the hand three slots on. Its
      kernel pages are fresh. */
  function Forked(ck: Ck, rest: seq<int>): Ck
    requires ck.inClock <= |ck.nodes|
  {
    Ck(Kept(ck) + rest, ck.inClock, ck.currInd + 3, false)
  }

  /** The child's clock is exact exactly if the parent's is empty or full. */
  lemma ForkKeepsClockIff(sp: Space, ck: Ck, child: Space, rest: seq<int>)
    requires ClockInv(sp, ck) && Copies(sp, child) && ck.inClock + |rest| == CLOCKSIZE
    ensures ClockInv(child, Forked(ck, rest)) <==> ck.inClock == 0 || ck.inClock == CLOCKSIZE
  {
    hide Distinct;
    var ck' := Forked(ck, rest);
    assert Kept(ck') == Kept(ck);
  }

  /** And mdecrypt stays inside its nodes[] exactly if the parent's clock is empty or full, or the hand has three more slots
      before it. */
  lemma ForkKeepsSafeIff(ck: Ck, rest: seq<int>)
    requires Safe(ck) && ck.inClock + |rest| == CLOCKSIZE
    ensures Safe(Forked(ck, rest)) <==> ck.inClock == 0 || ck.inClock == CLOCKSIZE || ck.currInd + 3 < CLOCKSIZE
  {
  }

  // ---- Whole runs --------------------------------------------------------------------------------------------------------

  /** One process: its address space, its clock and its size in pages. */
  datatype State = State(sp: Space, ck: Ck, size: nat)

  /** A page fault at page v; the processor setting the accessed bit of a present page, or of the last page of all; a user
      store; growth into the given frames, of whose pages the first n are encrypted; a shrink to n pages; the user's own mencrypt
      of n pages. */
  datatype Label =
    | Fault(v: nat)
    | Touch(w: nat)
    | TouchTop
    | Store(w: nat, i: nat, b: Byte)
    | Grow(frames: seq<nat>, n: nat)
    | Shrink(n: nat)
    | Encrypt(v: nat, n: nat)

  function NewPage(f: nat): Slot { Slot(Pte(f, true, true, true, false, false), seq(PGSIZE, i => 0)) }

  /** allocuvm's pages, before growproc encrypts them. */
  function Extended(sp: Space, size: nat, frames: seq<nat>): Space
  {
    seq(|sp|, w requires 0 <= w < |sp| => if size <= w < size + |frames| then NewPage(frames[w - size]) else sp[w])
  }

  /** A step may happen. A fault finds the clock such that mdecrypt stays inside nodes[]. A fault on a page whose first stored
      byte is 0 is not a step: trap() kills the process. */
  ghost predicate Enabled(s: State, l: Label)
  {
    match l
    case Fault(v) => v < |s.sp| && Safe(s.ck) && !CutShort(s.sp[v])
    case Touch(w) => w < |s.sp| && s.sp[w].pte.p
    case TouchTop => true
    case Store(w, i, b) => w < |s.sp| && s.sp[w].pte.p && s.sp[w].pte.u && i < |s.sp[w].bytes|
    case Grow(frames, n) => s.size + |frames| <= |s.sp| && n <= |frames|
    case Shrink(n) => s.ck.inClock <= |s.ck.nodes|
    case Encrypt(v, n) => v + n <= |s.sp|
  }

  /** A shrink to nothing frees the pages and keeps the size: growproc returns -1 before it sets it. One that wraps around to a
      larger size frees nothing. */
  function ShrunkSize(size: nat, n: nat): nat { if n == 0 || n > size then size else n }

  ghost function Next(s: State, l: Label): State
    requires Enabled(s, l)
  {
    match l
    case Fault(v) => State(AfterFault(s.sp, s.ck, v), ClockAfter(s.sp, s.ck, v), s.size)
    case Touch(w) => State(s.sp[w := Slot(s.sp[w].pte.(a := true), s.sp[w].bytes)], s.ck, s.size)
    case Store(w, i, b) => State(s.sp[w := Slot(s.sp[w].pte.(a := true), s.sp[w].bytes[i := b])], s.ck, s.size)
    case Grow(frames, n) => State(Mencrypted(Extended(s.sp, s.size, frames), s.size, n), s.ck, s.size + |frames|)
    case TouchTop => State(s.sp, s.ck.(top := true), s.size)
    case Shrink(n) => State(if n > s.size then s.sp else Cut(s.sp, n), Shrunk(s.ck, n), ShrunkSize(s.size, n))
    case Encrypt(v, n) => State(Mencrypted(s.sp, v, n), s.ck, s.size)
  }

  /** Two entries for the same frame with the same rights: they may differ in the present, accessed and encrypted bits. */
  predicate SameRights(s: Slot, t: Slot) { t.pte.frame == s.pte.frame && t.pte.w == s.pte.w && t.pte.u == s.pte.u }

  /** mencrypt in bits: if every user page of the range is present or encrypted, those not yet encrypted get all their bytes
      flipped, the encrypted bit set and the present and accessed bits cleared; otherwise, and elsewhere, nothing happens. */
  lemma MencryptedAt(sp: Space, v: nat, n: nat, w: nat)
    requires w < |sp|
    ensures var s, t := sp[w], Mencrypted(sp, v, n)[w];
            && SameRights(s, t)
            && if v <= w < v + n && s.pte.u && !s.pte.e
                  && (forall x :: v <= x < v + n && x < |sp| && sp[x].pte.u ==> sp[x].pte.p || sp[x].pte.e)
               then && t.pte.e && !t.pte.p && !t.pte.a
                    && |t.bytes| == |s.bytes| && forall i :: 0 <= i < |s.bytes| ==> t.bytes[i] == 255 - s.bytes[i]
               else t == s
  {
    forall i | 0 <= i < |sp[w].bytes| ensures sp[w].bytes[i] ^ 0xFF == 255 - sp[w].bytes[i] {
    }
  }

  lemma EvictedRights(sp: Space, ck: Ck, w: nat)
    requires |ck.nodes| == CLOCKSIZE && w < |sp|
    ensures |Evicted(sp, ck)| == |sp| && SameRights(sp[w], Evicted(sp, ck)[w])
  {
    hide Swept, AmongFirst, Victim, Passed, Mencrypted;
    SweptAt(sp, ck, Passed(sp, ck, 0), w);
    var x, r := ck.nodes[Victim(sp, ck)], Swept(sp, ck, Passed(sp, ck, 0)).0;
    if x >= 0 {
      MencryptedAt(r, x, 1, w);
      MencryptedSize(r, x, 1);
    }
  }

  lemma MencryptedSize(sp: Space, v: nat, n: nat)
    ensures |Mencrypted(sp, v, n)| == |sp|
  {
  }

  /** No fault, eviction, access or mencrypt moves a page to another frame or changes what the user may do with it. */
  lemma StepKeepsRights(s: State, l: Label, w: nat)
    requires Enabled(s, l) && !l.Grow? && !l.Shrink? && w < |s.sp|
    ensures |Next(s, l).sp| == |s.sp| && SameRights(s.sp[w], Next(s, l).sp[w])
  {
    hide Evicted, Mencrypted;
    match l
    case Fault(v) =>
      if Handled(s.sp[v]) && s.ck.inClock >= CLOCKSIZE {
        EvictedRights(s.sp[v := Decoded(s.sp[v])], s.ck, w);
      }
    case Encrypt(v, n) =>
      MencryptedAt(s.sp, v, n, w);
      MencryptedSize(s.sp, v, n);
    case _ =>
  }

  /** The steps that keep the clock exact: growth that encrypts all its pages, a shrink that keeps the hand, and a mencrypt of
      pages that are not in the clock. */
  ghost predicate Keeps(s: State, l: Label)
    requires s.ck.inClock <= |s.ck.nodes|
  {
    match l
    case Grow(frames, n) => n == |frames|
    case Shrink(n) => KeepsHand(s.ck, n)
    case Encrypt(v, n) => forall w :: w in Kept(s.ck) ==> !(v <= w < v + n)
    case _ => true
  }

  /** The clock is exact, and there are no pages from the size on. */
  ghost predicate Inv(s: State)
  {
    ClockInv(s.sp, s.ck) && s.size <= |s.sp| && forall w :: s.size <= w < |s.sp| ==> s.sp[w].pte == ZERO
  }

  /** Each page before and after growth. */
  lemma GrownAt(sp: Space, size: nat, frames: seq<nat>, n: nat, w: nat)
    requires w < |sp| && Paged(sp) && n <= |frames|
    ensures Checked(Extended(sp, size, frames), size, n) && |Mencrypted(Extended(sp, size, frames), size, n)| == |sp|
    ensures var t := Mencrypted(Extended(sp, size, frames), size, n)[w];
            if size <= w < size + |frames|
            then t.pte == (if w < size + n then Pte(frames[w - size], false, true, true, false, true)
                           else Pte(frames[w - size], true, true, true, false, false))
                 && |t.bytes| == PGSIZE && Plain(t) == seq(PGSIZE, i => 0)
            else t == sp[w]
  {
    hide Flip, Plain;
    var sp1 := Extended(sp, size, frames);
    forall u | 0 <= u < |sp| ensures sp1[u].pte.u ==> sp1[u].pte.Mapped() {
      if size <= u < size + |frames| {
        assert sp1[u] == NewPage(frames[u - size]);
      }
    }
    if size <= w < size + |frames| {
      assert sp1[w] == NewPage(frames[w - size]);
      EncKeepsPlain(sp1[w]);
      FlipSizes();
      PlainOpen(sp1[w]);
    }
  }

  lemma PlainOpen(s: Slot)
    requires !s.pte.e
    ensures Plain(s) == s.bytes
  {
  }

  lemma GrowKeepsPaged(sp: Space, size: nat, frames: seq<nat>, n: nat)
    requires Paged(sp) && n <= |frames|
    ensures Paged(Mencrypted(Extended(sp, size, frames), size, n))
  {
    hide Flip, Mencrypted, Extended, Checked, Plain;
    var sp2 := Mencrypted(Extended(sp, size, frames), size, n);
    MencryptSize(Extended(sp, size, frames), size, n);
    ExtendedSize(sp, size, frames);
    forall w: nat | w < |sp2|
      ensures (sp2[w].pte.u ==> sp2[w].pte.p == !sp2[w].pte.e) && (sp2[w].pte.Mapped() ==> |sp2[w].bytes| == PGSIZE)
    {
      GrownAt(sp, size, frames, n, w);
    }
  }

  /** Growth keeps the clock exact exactly if it encrypts all the pages it makes: the first page that it does not is decrypted
      and not in the clock. */
  lemma GrowKeepsClockIff(s: State, frames: seq<nat>, n: nat)
    requires Inv(s) && Enabled(s, Grow(frames, n))
    ensures Inv(Next(s, Grow(frames, n))) <==> n == |frames|
  {
    hide Flip, Mencrypted, Extended, Checked, Plain, Paged;
    var sp2 := Mencrypted(Extended(s.sp, s.size, frames), s.size, n);
    MencryptSize(Extended(s.sp, s.size, frames), s.size, n);
    ExtendedSize(s.sp, s.size, frames);
    GrowKeepsPaged(s.sp, s.size, frames, n);
    forall w: nat | w < |s.sp|
      ensures Open(sp2[w]) <==> Open(s.sp[w]) || s.size + n <= w < s.size + |frames|
      ensures w >= s.size + |frames| ==> sp2[w].pte == ZERO
    {
      GrownAt(s.sp, s.size, frames, n, w);
    }
    if n < |frames| {
      var w := s.size + n;
      assert Open(sp2[w]) && !Open(s.sp[w]);
    }
  }

  /** A process of one page after exec. */
  function OnePage(): State { State([ClosedPage(0), Slot(ZERO, [])], Ck(seq(CLOCKSIZE, i => 0), 0, 0, false), 1) }

  /** A growth by one byte at a page boundary, of which growproc encrypts nothing, loses the clock. */
  lemma GrowLosesClock()
    ensures Inv(OnePage()) && Enabled(OnePage(), Grow([1], 0)) && !Inv(Next(OnePage(), Grow([1], 0)))
  {
    assert Inv(OnePage());
    GrowKeepsClockIff(OnePage(), [1], 0);
  }

  lemma ExtendedSize(sp: Space, size: nat, frames: seq<nat>)
    ensures |Extended(sp, size, frames)| == |sp|
  {
  }

  /** The user's mencrypt always passes its check, and keeps the clock exact exactly if no page of the clock is in the range. */
  lemma EncryptKeepsClockIff(s: State, v: nat, n: nat)
    requires Inv(s) && Enabled(s, Encrypt(v, n))
    ensures Checked(s.sp, v, n)
    ensures Inv(Next(s, Encrypt(v, n))) <==> forall w :: w in Kept(s.ck) ==> !(v <= w < v + n)
  {
    hide Flip, Mencrypted, Checked;
    var sp2 := Mencrypted(s.sp, v, n);
    PagedChecked(s.sp, v, n);
    MencryptSize(s.sp, v, n);
    forall w: nat | w < |s.sp| ensures sp2[w] == if v <= w < v + n then Enc(s.sp[w]) else s.sp[w] {
      EncryptedAt(s.sp, v, n, w);
    }
    EncryptKeepsPaged(s.sp, v, n);
    if w :| w in Kept(s.ck) && v <= w < v + n {
      assert Open(s.sp[w]) && !Open(sp2[w]);
    }
  }

  lemma PagedChecked(sp: Space, v: nat, n: nat)
    requires Paged(sp)
    ensures Checked(sp, v, n)
  {
  }

  lemma EncryptedAt(sp: Space, v: nat, n: nat, w: nat)
    requires w < |sp| && Checked(sp, v, n)
    ensures |Mencrypted(sp, v, n)| == |sp| && Mencrypted(sp, v, n)[w] == if v <= w < v + n then Enc(sp[w]) else sp[w]
  {
    hide Flip;
  }

  lemma EncryptKeepsPaged(sp: Space, v: nat, n: nat)
    requires Paged(sp)
    ensures Paged(Mencrypted(sp, v, n))
  {
    hide Flip;
    FlipSizes();
  }

  /** A user that encrypts a page it has just read loses the clock. */
  lemma EncryptLosesClock()
    ensures var s := State([OpenPage(0)], Ck(seq(CLOCKSIZE, i => 0), 1, 1, false), 1);
            Inv(s) && Enabled(s, Encrypt(0, 1)) && !Inv(Next(s, Encrypt(0, 1)))
  {
    var s := State([OpenPage(0)], Ck(seq(CLOCKSIZE, i => 0), 1, 1, false), 1);
    assert Kept(s.ck) == [0];
    assert Inv(s);
    EncryptKeepsClockIff(s, 0, 1);
    assert 0 in Kept(s.ck);
  }

  lemma FlipSizes()
    ensures forall b: seq<Byte> :: |Flip(b)| == |b|
  {
  }

  lemma FaultKeepsInv(s: State, v: nat)
    requires Inv(s) && Enabled(s, Fault(v))
    ensures Inv(Next(s, Fault(v)))
  {
    hide AfterFault, ClockAfter, Exact;
    FaultKeepsClockIff(s.sp, s.ck, v);
    FaultKeepsSound(s, v);
  }

  lemma ShrinkKeepsInvIff(s: State, n: nat)
    requires Inv(s) && Enabled(s, Shrink(n))
    ensures Inv(Next(s, Shrink(n))) <==> KeepsHand(s.ck, n)
  {
    hide Shrunk, KeepsHand, ClockInv;
    InvSlots(s.sp, s.ck);
    ShrinkKeepsClockIff(s.sp, s.ck, n);
    if n > s.size {
      NothingShrinks(s, n);
    }
  }

  /** A shrink that wraps around changes nothing where the clock is exact. */
  lemma NothingShrinks(s: State, n: nat)
    requires Inv(s) && n > s.size
    ensures s.ck.inClock <= |s.ck.nodes| && Shrunk(s.ck, n) == s.ck && KeepsHand(s.ck, n)
  {
    hide Below, Paged;
    AllStay(Kept(s.ck), n);
    assert s.ck.nodes == Kept(s.ck) + s.ck.nodes[s.ck.inClock..];
  }

  lemma {:induction false} AllStay(s: seq<int>, n: nat)
    requires forall x :: x in s ==> Stays(x, n)
    ensures Below(s, n) == s
  {
    if s != [] {
      assert s[0] in s;
      AllStay(s[1..], n);
    }
  }

  lemma InvSlots(sp: Space, ck: Ck)
    requires ClockInv(sp, ck)
    ensures ck.inClock <= |ck.nodes|
  {
    hide Paged, Exact;
  }

  /** Exactly which steps keep the clock exact. */
  lemma StepKeepsInvIff(s: State, l: Label)
    requires Inv(s) && Enabled(s, l)
    ensures s.ck.inClock <= |s.ck.nodes| && (Inv(Next(s, l)) <==> Keeps(s, l))
  {
    hide Flip, Safe, AfterFault, ClockAfter, Mencrypted, Extended, Shrunk, KeepsHand, Cut;
    match l {
      case Fault(v) => FaultKeepsInv(s, v);
      case Grow(frames, n) => GrowKeepsClockIff(s, frames, n);
      case Shrink(n) => ShrinkKeepsInvIff(s, n);
      case Encrypt(v, n) => EncryptKeepsClockIff(s, v, n);
      case Touch(w) =>
      case TouchTop =>
      case Store(w, i, b) =>
    }
  }

  /** The state after a run, if every step of it may happen. */
  ghost predicate Runs(s: State, labels: seq<Label>)
    decreases |labels|
  {
    labels != [] ==> Enabled(s, labels[0]) && Runs(Next(s, labels[0]), labels[1..])
  }

  ghost function After(s: State, labels: seq<Label>): State
    requires Runs(s, labels)
    decreases |labels|
  {
    if labels == [] then s else After(Next(s, labels[0]), labels[1..])
  }

  /** Every step of the run is one that keeps the clock exact. */
  ghost predicate Careful(s: State, labels: seq<Label>)
    requires Runs(s, labels)
    decreases |labels|
  {
    labels != [] ==> && s.ck.inClock <= |s.ck.nodes| && Keeps(s, labels[0]) && Careful(Next(s, labels[0]), labels[1..])
  }

  /** Over every such run the clock stays exact. */
  lemma {:induction false} RunKeepsInv(s: State, labels: seq<Label>)
    requires Inv(s) && Runs(s, labels) && Careful(s, labels)
    ensures Inv(After(s, labels))
    decreases |labels|
  {
    hide Inv, Enabled, Next, Keeps;
    if labels != [] {
      StepKeepsInvIff(s, labels[0]);
      RunKeepsInv(Next(s, labels[0]), labels[1..]);
    }
  }

  ghost function OpenPages(sp: Space): set<nat> { set w: nat | w < |sp| && Open(sp[w]) }

  lemma {:induction false} FewElements(x: set<nat>, s: seq<int>)
    requires forall w :: w in x ==> w in s
    ensures |x| <= |s|
  {
    if s != [] {
      var y := set w: nat | w in x && w != s[0];
      forall w | w in y ensures w in s[1..] {
        assert w in s;
      }
      FewElements(y, s[1..]);
      assert x <= y + {s[0]};
      FewMore(x, y, s[0]);
    } else {
      assert x == {};
    }
  }

  lemma FewMore(x: set<nat>, y: set<nat>, e: int)
    requires y <= x && forall w :: w in x ==> w in y || w == e
    ensures |x| <= |y| + 1
  {
    if x != y {
      var w :| w in x && w !in y;
      assert x == y + {w};
    }
  }

  /** At most CLOCKSIZE user pages are ever decrypted, and they are the distinct pages in the clock. */
  lemma FewPagesAreOpen(s: State, labels: seq<Label>)
    requires Inv(s) && Runs(s, labels) && Careful(s, labels)
    ensures var t := After(s, labels);
            && |OpenPages(t.sp)| <= CLOCKSIZE && t.ck.inClock <= |t.ck.nodes| && Distinct(Kept(t.ck))
            && (forall w: nat :: w in OpenPages(t.sp) <==> w in Kept(t.ck))
            && (0 < t.ck.inClock < CLOCKSIZE ==> t.ck.currInd == t.ck.inClock)
  {
    hide Runs, After, Careful;
    RunKeepsInv(s, labels);
    var t := After(s, labels);
    FewElements(OpenPages(t.sp), Kept(t.ck));
  }

  /** exec ends by encrypting all pages and emptying the clock; runs begin there. */
  lemma ExecBegins(sp: Space, size: nat, nodes: seq<int>, top: bool)
    requires size <= |sp| && |nodes| == CLOCKSIZE && Paged(sp)
    requires forall w :: 0 <= w < |sp| ==> if w < size then sp[w].pte.Mapped() else sp[w].pte == ZERO
    ensures Inv(State(Mencrypted(sp, 0, size), Ck(nodes, 0, 0, top), size))
  {
    hide Flip;
    FlipSizes();
    assert Checked(sp, 0, size);
  }

  // ---- Whatever the clock holds ------------------------------------------------------------------------------------------

  /** What holds over every run, whether or not it keeps the clock exact. */
  ghost predicate Sound(s: State)
  {
    && Paged(s.sp) && |s.ck.nodes| == CLOCKSIZE && s.ck.inClock <= CLOCKSIZE && s.size <= |s.sp|
    && forall w :: s.size <= w < |s.sp| ==> s.sp[w].pte == ZERO
  }

  /** mdecrypt, handled or not. */
  lemma FaultKeepsSound(s: State, v: nat)
    requires Sound(s) && Safe(s.ck) && v < |s.sp|
    ensures Sound(State(AfterFault(s.sp, s.ck, v), ClockAfter(s.sp, s.ck, v), s.size))
  {
    hide Evicted, Victim, Flip, AmongFirst, TopSwept;
    AfterFaultPaged(s.sp, s.ck, v);
    hide Paged;
    forall w | s.size <= w < |s.sp| ensures AfterFault(s.sp, s.ck, v)[w].pte == ZERO {
      assert s.sp[w].pte == ZERO;
      if Handled(s.sp[v]) && s.ck.inClock == CLOCKSIZE {
        DecodedChecked(s.sp, v);
        EvictedAt(s.sp[v := Decoded(s.sp[v])], s.ck, w);
      }
    }
  }

  lemma GrowKeepsSound(s: State, frames: seq<nat>, n: nat)
    requires Sound(s) && Enabled(s, Grow(frames, n))
    ensures Sound(Next(s, Grow(frames, n)))
  {
    hide Flip, Mencrypted, Extended, Checked, Plain, Paged;
    MencryptSize(Extended(s.sp, s.size, frames), s.size, n);
    ExtendedSize(s.sp, s.size, frames);
    GrowKeepsPaged(s.sp, s.size, frames, n);
    var sp2 := Mencrypted(Extended(s.sp, s.size, frames), s.size, n);
    forall w: nat | s.size + |frames| <= w < |s.sp| ensures sp2[w].pte == ZERO {
      GrownAt(s.sp, s.size, frames, n, w);
    }
  }

  lemma EncryptKeepsSound(s: State, v: nat, n: nat)
    requires Sound(s) && Enabled(s, Encrypt(v, n))
    ensures Sound(Next(s, Encrypt(v, n)))
  {
    hide Flip, Mencrypted, Checked, Paged;
    MencryptSize(s.sp, v, n);
    EncryptKeepsPaged(s.sp, v, n);
    PagedChecked(s.sp, v, n);
    forall w: nat | s.size <= w < |s.sp| ensures Mencrypted(s.sp, v, n)[w].pte == ZERO {
      EncryptedAt(s.sp, v, n, w);
    }
  }

  lemma ShrinkKeepsSound(s: State, n: nat)
    requires Sound(s) && Enabled(s, Shrink(n))
    ensures Sound(Next(s, Shrink(n)))
  {
    hide Flip, Shrunk;
    ShrunkKept(s.ck, n);
  }

  lemma StepKeepsSound(s: State, l: Label)
    requires Sound(s) && Enabled(s, l)
    ensures Sound(Next(s, l))
  {
    hide Flip, AfterFault, ClockAfter, Mencrypted, Extended, Shrunk, Cut;
    match l {
      case Fault(v) => FaultKeepsSound(s, v);
      case Grow(frames, n) => GrowKeepsSound(s, frames, n);
      case Shrink(n) => ShrinkKeepsSound(s, n);
      case Encrypt(v, n) => EncryptKeepsSound(s, v, n);
      case Touch(w) =>
      case TouchTop =>
      case Store(w, i, b) =>
    }
  }

  /** The steps that take the hand outside nodes[] while a slot is free: a fault that moves it past the last slot of a clock
      that it does not fill, and a shrink by just the last slot of a full clock with the hand at its end. */
  ghost predicate Overruns(s: State, l: Label)
    requires s.ck.inClock <= |s.ck.nodes|
  {
    match l
    case Fault(v) => v < |s.sp| && Handled(s.sp[v]) && 0 < s.ck.inClock < CLOCKSIZE - 1 && s.ck.currInd == CLOCKSIZE - 1
    case Shrink(n) => HandPastEnd(s.ck, n)
    case _ => false
  }

  /** Exactly after the other steps mdecrypt still stays inside nodes[]. */
  lemma StepKeepsSafeIff(s: State, l: Label)
    requires Safe(s.ck) && Enabled(s, l)
    ensures Safe(Next(s, l).ck) <==> !Overruns(s, l)
  {
    hide Flip, AfterFault, Mencrypted, Extended, Shrunk, Cut, HandPastEnd, Victim, TopSwept, Handled;
    if l.Shrink? {
      ShrinkKeepsSafeIff(s.ck, l.n);
    }
  }

  /** The clock is safe at every moment of the run. */
  ghost predicate AlwaysSafe(s: State, labels: seq<Label>)
    requires Runs(s, labels)
    decreases |labels|
  {
    Safe(s.ck) && (labels != [] ==> AlwaysSafe(Next(s, labels[0]), labels[1..]))
  }

  ghost predicate NeverOverruns(s: State, labels: seq<Label>)
    requires Runs(s, labels)
    decreases |labels|
  {
    labels != [] ==> && s.ck.inClock <= |s.ck.nodes| && !Overruns(s, labels[0]) && NeverOverruns(Next(s, labels[0]), labels[1..])
  }

  /** Over a whole run mdecrypt may be called at every moment exactly if no step of the run is one of those two. */
  lemma {:induction false} RunStaysSafeIff(s: State, labels: seq<Label>)
    requires Safe(s.ck) && Runs(s, labels)
    ensures AlwaysSafe(s, labels) <==> NeverOverruns(s, labels)
    decreases |labels|
  {
    hide Enabled, Next, Overruns;
    if labels != [] {
      StepKeepsSafeIff(s, labels[0]);
      if Safe(Next(s, labels[0]).ck) {
        RunStaysSafeIff(Next(s, labels[0]), labels[1..]);
      }
    }
  }

  /** Slot i is in the clock or may come to be in it without being stored to again. */
  predicate Reaches(ck: Ck, i: nat) { ck.inClock > 0 && (i < ck.inClock || i < ck.currInd || ck.currInd < ck.inClock) }

  /** Those slots are -1 or name one of the given pages. */
  ghost predicate Listed(ck: Ck, pages: set<int>)
  {
    forall i: nat :: i < |ck.nodes| && Reaches(ck, i) ==> ck.nodes[i] == -1 || ck.nodes[i] in pages
  }

  lemma FaultKeepsListed(sp: Space, ck: Ck, v: nat, pages: set<int>)
    requires Safe(ck) && v < |sp| && Listed(ck, pages) && (Handled(sp[v]) ==> v in pages)
    ensures Listed(ClockAfter(sp, ck, v), pages)
  {
    hide Victim, TopSwept, Handled, Flip;
  }

  lemma ShrinkKeepsListed(ck: Ck, n: nat, pages: set<int>)
    requires |ck.nodes| == CLOCKSIZE && ck.inClock <= CLOCKSIZE && Listed(ck, pages)
    ensures Listed(Shrunk(ck, n), pages)
  {
    hide Below;
    ShrunkKept(ck, n);
    BelowIs(Kept(ck), n);
    var ck' := Shrunk(ck, n);
    forall i: nat | i < |ck'.nodes| && Reaches(ck', i) ensures ck'.nodes[i] == -1 || ck'.nodes[i] in pages {
      if i < ck'.inClock {
        assert ck'.nodes[i] == Kept(ck')[i] && ck'.nodes[i] in Kept(ck);
      } else if i >= ck.inClock {
        assert ck'.nodes[i] == ck.nodes[i] && Reaches(ck, i);
      }
    }
  }

  ghost function MappedPages(sp: Space): set<int> { set w | 0 <= w < |sp| && sp[w].pte.Mapped() }

  lemma StepKeepsListed(s: State, l: Label, pages: set<int>)
    requires Sound(s) && Enabled(s, l) && Listed(s.ck, pages) && MappedPages(s.sp) <= pages
    ensures Listed(Next(s, l).ck, pages)
  {
    hide Flip, AfterFault, ClockAfter, Mencrypted, Extended, Shrunk, Cut, Paged;
    match l {
      case Fault(v) =>
        assert s.sp[v].pte.Mapped() ==> v in MappedPages(s.sp);
        FaultKeepsListed(s.sp, s.ck, v, pages);
      case Shrink(n) => ShrinkKeepsListed(s.ck, n, pages);
      case _ =>
    }
  }

  /** The pages that are mapped at some moment of a run. */
  ghost function EverMapped(s: State, labels: seq<Label>): set<int>
    requires Runs(s, labels)
    decreases |labels|
  {
    MappedPages(s.sp) + if labels == [] then {} else EverMapped(Next(s, labels[0]), labels[1..])
  }

  /** Over every run the slots stay -1 or pages that were there at some moment of it. */
  lemma {:induction false} RunKeepsListed(s: State, labels: seq<Label>, pages: set<int>)
    requires Sound(s) && Runs(s, labels) && Listed(s.ck, pages) && EverMapped(s, labels) <= pages
    ensures Sound(After(s, labels)) && Listed(After(s, labels).ck, pages)
    decreases |labels|
  {
    hide Sound, Enabled, Next, Listed, MappedPages;
    if labels != [] {
      StepKeepsSound(s, labels[0]);
      StepKeepsListed(s, labels[0], pages);
      RunKeepsListed(Next(s, labels[0]), labels[1..], pages);
    }
  }

  // ---- What the user sees ----------------------------------------------------------------------------------------------------

  /** The user's memory, page by page. */
  ghost function Memory(sp: Space): seq<seq<Byte>> { seq(|sp|, w requires 0 <= w < |sp| => Plain(sp[w])) }

  /** What a step does to a memory without encryption: a store stores, growth gives zeros, a shrink takes pages away, and
      nothing else shows. */
  ghost function Effect(mem: seq<seq<Byte>>, size: nat, l: Label): seq<seq<Byte>>
  {
    match l
    case Store(w, i, b) => if w < |mem| && i < |mem[w]| then mem[w := mem[w][i := b]] else mem
    case Grow(frames, n) =>
      seq(|mem|, w requires 0 <= w < |mem| => if size <= w < size + |frames| then seq(PGSIZE, i => 0) else mem[w])
    case Shrink(n) => seq(|mem|, w requires 0 <= w < |mem| => if w < n || n > size then mem[w] else [])
    case _ => mem
  }

  function SizeAfter(size: nat, l: Label): nat
  {
    if l.Grow? then size + |l.frames| else if l.Shrink? then ShrunkSize(size, l.n) else size
  }

  ghost function Replay(mem: seq<seq<Byte>>, size: nat, labels: seq<Label>): seq<seq<Byte>>
    decreases |labels|
  {
    if labels == [] then mem
    else Replay(Effect(mem, size, labels[0]), SizeAfter(size, labels[0]), labels[1..])
  }

  /** Every step keeps what the user's memory needs: each user page is present or encrypted, and never both. */
  lemma StepKeepsPaged(s: State, l: Label)
    requires Paged(s.sp) && Enabled(s, l)
    ensures Paged(Next(s, l).sp)
  {
    hide Flip, AfterFault, ClockAfter, Mencrypted, Extended, Shrunk;
    match l {
      case Fault(v) => AfterFaultPaged(s.sp, s.ck, v);
      case Grow(frames, n) => GrowKeepsPaged(s.sp, s.size, frames, n);
      case Encrypt(v, n) => EncryptKeepsPaged(s.sp, v, n);
      case Shrink(n) =>
      case Touch(w) =>
      case TouchTop =>
      case Store(w, i, b) =>
    }
  }

  lemma StepShows(s: State, l: Label)
    requires Paged(s.sp) && Enabled(s, l)
    ensures Memory(Next(s, l).sp) == Effect(Memory(s.sp), s.size, l)
  {
    hide Flip, AfterFault, ClockAfter;
    match l {
      case Fault(v) => FaultShows(s, v);
      case Grow(frames, n) => GrowShows(s, frames, n);
      case Shrink(n) => ShrinkShows(s, n);
      case Encrypt(v, n) => EncryptShows(s, v, n);
      case Touch(w) =>
      case TouchTop =>
      case Store(w, i, b) =>
    }
  }

  lemma FaultShows(s: State, v: nat)
    requires Paged(s.sp) && Enabled(s, Fault(v))
    ensures Memory(Next(s, Fault(v)).sp) == Memory(s.sp)
  {
    hide Flip, AfterFault, ClockAfter, Plain;
    FaultKeepsPlainIff(s.sp, s.ck, v, v);
    forall w | 0 <= w < |s.sp| ensures Memory(Next(s, Fault(v)).sp)[w] == Memory(s.sp)[w] {
      FaultKeepsPlainIff(s.sp, s.ck, v, w);
    }
  }

  lemma GrowShows(s: State, frames: seq<nat>, n: nat)
    requires Paged(s.sp) && Enabled(s, Grow(frames, n))
    ensures Memory(Next(s, Grow(frames, n)).sp) == Effect(Memory(s.sp), s.size, Grow(frames, n))
  {
    hide Mencrypted, Extended, Flip, Plain, Checked;
    var sp2 := Mencrypted(Extended(s.sp, s.size, frames), s.size, n);
    MencryptSize(Extended(s.sp, s.size, frames), s.size, n);
    ExtendedSize(s.sp, s.size, frames);
    forall w | 0 <= w < |s.sp| ensures Memory(sp2)[w] == Effect(Memory(s.sp), s.size, Grow(frames, n))[w] {
      GrownAt(s.sp, s.size, frames, n, w);
    }
  }

  lemma ShrinkShows(s: State, n: nat)
    requires Enabled(s, Shrink(n))
    ensures Memory(Next(s, Shrink(n)).sp) == Effect(Memory(s.sp), s.size, Shrink(n))
  {
    hide Flip, Shrunk;
  }

  lemma EncryptShows(s: State, v: nat, n: nat)
    requires Enabled(s, Encrypt(v, n))
    ensures Memory(Next(s, Encrypt(v, n)).sp) == Memory(s.sp)
  {
    hide Flip, Plain, Mencrypted;
    MencryptSize(s.sp, v, n);
    forall w | 0 <= w < |s.sp| ensures Memory(Next(s, Encrypt(v, n)).sp)[w] == Memory(s.sp)[w] {
      MencryptKeepsPlain(s.sp, v, n, w);
    }
  }

  lemma MencryptSize(sp: Space, v: nat, n: nat)
    ensures |Mencrypted(sp, v, n)| == |sp|
  {
  }

  /** Encryption is invisible: after every run, whether or not it keeps the clock exact, the user reads what the stores of the
      run would have made of a memory that is never encrypted. */
  lemma {:induction false} EncryptionIsInvisible(s: State, labels: seq<Label>)
    requires Paged(s.sp) && Runs(s, labels)
    ensures Memory(After(s, labels).sp) == Replay(Memory(s.sp), s.size, labels)
    decreases |labels|
  {
    hide Paged, Enabled, Effect, Memory, AfterFault, ClockAfter, Mencrypted, Extended;
    if labels != [] {
      StepKeepsPaged(s, labels[0]);
      StepShows(s, labels[0]);
      EncryptionIsInvisible(Next(s, labels[0]), labels[1..]);
    }
  }

  // ---- A full clock, filled by faults -------------------------------------------------------------------------------------

  /** A page of zeros, decrypted and accessed, and the same page encrypted. */
  function OpenPage(f: nat): Slot { Slot(Pte(f, true, true, true, true, false), seq(PGSIZE, i => 0)) }

  function ClosedPage(f: nat): Slot { Slot(Pte(f, false, true, true, false, true), seq(PGSIZE, i => 0xFF)) }

  /** Eight pages, of which the first k have been read. */
  function Filling(k: nat): State
    requires k <= CLOCKSIZE
  {
    State(seq(CLOCKSIZE, w requires 0 <= w < CLOCKSIZE => if w < k then OpenPage(w) else ClosedPage(w)),
          Ck(seq(CLOCKSIZE, i => if i < k then i else 0), k, k, false), CLOCKSIZE)
  }

  /** The faults that lead from k pages read to n. */
  function Faults(k: nat, n: nat): seq<Label>
    requires k <= n
    decreases n - k
  {
    if k == n then [] else [Fault(k)] + Faults(k + 1, n)
  }

  lemma FillStep(k: nat)
    requires k < CLOCKSIZE
    ensures Enabled(Filling(k), Fault(k)) && Next(Filling(k), Fault(k)) == Filling(k + 1)
  {
    hide Flip;
    var s, t := Filling(k), Filling(k + 1);
    assert Flip(ClosedPage(k).bytes) == OpenPage(k).bytes by {
      FlipOnes();
    }
    assert Decoded(s.sp[k]) == OpenPage(k);
    assert s.sp[k := OpenPage(k)] == t.sp && s.ck.nodes[k := k] == t.ck.nodes;
  }

  lemma FlipOnes()
    ensures Flip(seq(PGSIZE, i => 0xFF)) == seq(PGSIZE, i => 0)
  {
  }

  lemma {:induction false} FillRun(k: nat, n: nat)
    requires k <= n <= CLOCKSIZE
    ensures Runs(Filling(k), Faults(k, n)) && Careful(Filling(k), Faults(k, n)) && After(Filling(k), Faults(k, n)) == Filling(n)
    decreases n - k
  {
    if k < n {
      FillStep(k);
      FillRun(k + 1, n);
      hide Filling, Enabled, Next;
      assert Faults(k, n)[1..] == Faults(k + 1, n);
      FillSlots(k);
    }
  }

  /** Every one of these states is reached after exec, and its clock is exact. */
  lemma FillReaches(n: nat)
    requires n <= CLOCKSIZE
    ensures Inv(Filling(0)) && Runs(Filling(0), Faults(0, n)) && Careful(Filling(0), Faults(0, n))
    ensures After(Filling(0), Faults(0, n)) == Filling(n) && Inv(Filling(n))
  {
    hide Inv, Runs, Careful, After, Faults, Filling;
    FillRun(0, n);
    FillBegins();
    RunKeepsInv(Filling(0), Faults(0, n));
  }

  lemma FillSlots(k: nat)
    requires k <= CLOCKSIZE
    ensures Filling(k).ck.inClock <= |Filling(k).ck.nodes|
  {
  }

  /** Reading eight pages after exec fills the clock and leaves the hand at its end; a shrink by the last of them then leaves
      the hand outside nodes[]. */
  lemma HandPastEndIsReached()
    ensures Inv(Filling(0)) && Runs(Filling(0), Faults(0, 8)) && Careful(Filling(0), Faults(0, 8))
    ensures var t := After(Filling(0), Faults(0, 8));
            Inv(t) && Enabled(t, Shrink(7)) && HandPastEnd(t.ck, 7) && !Safe(Next(t, Shrink(7)).ck)
  {
    hide Inv, Runs, Careful, After, Faults, Filling, Safe, HandPastEnd, Next, Enabled;
    FillReaches(8);
    FullClock();
  }

  /** After one page has been read, fork gives the child a clock that is not exact, and after five a hand outside nodes[]. */
  lemma ForkLosesClock(child: Space, rest: seq<int>)
    requires Copies(Filling(1).sp, child) && |rest| == 7
    ensures Runs(Filling(0), Faults(0, 1)) && After(Filling(0), Faults(0, 1)) == Filling(1)
    ensures Runs(Filling(0), Faults(0, 5)) && After(Filling(0), Faults(0, 5)) == Filling(5)
    ensures !ClockInv(child, Forked(Filling(1).ck, rest)) && !Safe(Forked(Filling(5).ck, rest[..3]))
  {
    FillReaches(1);
    FillReaches(5);
    hide Runs, After, Faults, Inv;
    InvClock(Filling(1));
    ForkKeepsClockIff(Filling(1).sp, Filling(1).ck, child, rest);
  }

  lemma FullClock()
    requires Inv(Filling(CLOCKSIZE))
    ensures var t := Filling(CLOCKSIZE);
            && Enabled(t, Shrink(7)) && HandPastEnd(t.ck, 7) && !Safe(Next(t, Shrink(7)).ck)
  {
    hide Inv, ClockInv, Below, Shrunk, Safe;
    var t := Filling(CLOCKSIZE);
    InvClock(t);
    InvSafe(t.sp, t.ck);
    assert Kept(t.ck) == [0, 1, 2, 3, 4, 5, 6, 7];
    SevenBelow();
    ShrinkKeepsSafeIff(t.ck, 7);
  }

  lemma FillBegins()
    ensures Inv(Filling(0))
  {
  }

  lemma InvClock(s: State)
    requires Inv(s)
    ensures ClockInv(s.sp, s.ck)
  {
    hide ClockInv;
  }

  lemma SevenBelow()
    ensures |Below([0, 1, 2, 3, 4, 5, 6, 7], 7)| == 7
  {
    assert Below([6, 7], 7) == [6];
    assert Below([4, 5, 6, 7], 7) == [4, 5, 6];
    assert Below([2, 3, 4, 5, 6, 7], 7) == [2, 3, 4, 5, 6];
  }

  /** Page 0 read, encrypted by the user and read again, and then the pages up to k: it has two slots. */
  function Again(k: nat): State
    requires k < CLOCKSIZE
  {
    State(Filling(k).sp, Ck(seq(CLOCKSIZE, i => if 0 < i <= k then i - 1 else 0), k + 1, k + 1, false), CLOCKSIZE)
  }

  lemma AgainBegins()
    ensures Enabled(Filling(1), Encrypt(0, 1)) && Next(Filling(1), Encrypt(0, 1)) == Again(0)
  {
    hide Flip, Mencrypted;
    var sp, sp' := Filling(1).sp, Filling(0).sp;
    assert Flip(OpenPage(0).bytes) == ClosedPage(0).bytes by {
      FlipOnes();
      FlipTwice(ClosedPage(0).bytes);
    }
    assert Checked(sp, 0, 1);
    MencryptSize(sp, 0, 1);
    forall w: nat | w < CLOCKSIZE ensures Mencrypted(sp, 0, 1)[w] == sp'[w] {
      EncryptedAt(sp, 0, 1, w);
    }
    assert Mencrypted(sp, 0, 1) == sp';
    assert Filling(1).ck.nodes == Again(0).ck.nodes;
  }

  lemma AgainStep(k: nat)
    requires k + 1 < CLOCKSIZE
    ensures Enabled(Again(k), Fault(k)) && Next(Again(k), Fault(k)) == Again(k + 1)
  {
    hide Flip;
    var s, t := Again(k), Again(k + 1);
    FillStep(k);
    assert s.ck.nodes[k + 1 := k] == t.ck.nodes;
  }

  lemma {:induction false} AgainRun(k: nat)
    requires k < CLOCKSIZE
    ensures Runs(Again(k), Faults(k, 7)) && After(Again(k), Faults(k, 7)) == Again(7)
    decreases CLOCKSIZE - k
  {
    if k < 7 {
      AgainStep(k);
      AgainRun(k + 1);
      hide Again, Enabled, Next;
      assert Faults(k, 7)[1..] == Faults(k + 1, 7);
    }
  }

  /** So a run after exec fills the clock with page 0 in two slots. The next fault is handled, and evicts the second of them
      although the page has been accessed. */
  lemma PageInTwoSlots()
    ensures Runs(Filling(1), [Encrypt(0, 1)] + Faults(0, 7)) && After(Filling(1), [Encrypt(0, 1)] + Faults(0, 7)) == Again(7)
    ensures !Distinct(Again(7).ck.nodes) && Enabled(Again(7), Fault(7)) && Handled(Again(7).sp[7])
    ensures Next(Again(7), Fault(7)).ck.nodes == [0, 7, 1, 2, 3, 4, 5, 6]
  {
    AgainBegins();
    AgainRun(0);
    assert ([Encrypt(0, 1)] + Faults(0, 7))[1..] == Faults(0, 7);
    hide Runs, After, Faults;
    AgainVictim();
  }

  lemma AgainVictim()
    ensures Enabled(Again(7), Fault(7)) && Handled(Again(7).sp[7])
    ensures !Distinct(Again(7).ck.nodes) && Next(Again(7), Fault(7)).ck.nodes == [0, 7, 1, 2, 3, 4, 5, 6]
  {
    hide Flip;
    var s := Again(7);
    var sp, ck := s.sp[7 := Decoded(s.sp[7])], s.ck;
    assert At(ck, 0) == 0 && At(ck, 1) == 0 && ck.nodes[0] == ck.nodes[1];
    UsedIs(sp, ck, 0);
    UsedIs(sp, ck, 1);
    hide Used;
    assert Same(sp, At(ck, 0), At(ck, 1));
    assert !Chance(sp, ck, 1) && Chance(sp, ck, 0);
    assert Passed(sp, ck, 0) == 1;
    assert Victim(sp, ck) == 1;
  }
}
