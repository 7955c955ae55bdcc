/** Runs of the transmit machine that show what can really happen: the device
    ahead of `cur`, a mapping at bus address zero that is never undone, a queue
    stopped for good, and a stopped queue none of whose descriptors asks for an
    interrupt, for every frame setting that allows it. */
module TxWitness {
  import opened Common
  import opened TxPacket
  import opened TxProtocol
  import opened TxSlots
  import opened TxWire
  import A = TxAgreement
  import C = TxCoalesce
  import D = TxDevice
  import G = TxLedger
  import I = TxInterrupts
  import M = TxMapping
  import S = TxSafety
  import W = TxWaking

  // ------------------------------------------------------------ one packet

  // The slots of a packet, `id` on the last.
  function SlotsFor(job: Job, id: nat): (slots: seq<Slot>)
    ensures |slots| == job.Count()
  {
    seq(job.Count(), i requires 0 <= i < job.Count() =>
      if i < job.Ctx() then EMPTY
      else
        var b := job.pkt.bufs[i - job.Ctx()];
        Slot(if i == job.Count() - 1 then Some(id) else None, b.addr, b.len, false, job.pkt.txPackets, job.pkt.txBytes))
  }

  lemma SlotsReady(job: Job, id: nat)
    requires job.Valid() && forall k :: 0 <= k < |job.pkt.bufs| ==> job.pkt.bufs[k].len > 0
    ensures Ready(job, SlotsFor(job, id))
  {
    forall k: nat | k < |job.pkt.bufs| ensures SlotOf(job, SlotsFor(job, id), k) {
    }
  }

  lemma ReachableThen(w: World, actions: seq<Action>, v: World)
    requires S.Reachable(w) && S.Reaches(w, actions, v)
    ensures S.Reachable(v) && S.Inv(v) && v.frames == w.frames
  {
    hide S.Inv, S.Reaches;
    S.InvReachable(w);
    S.InvRun(w, actions, v);
    var before :| S.Reaches(Start(w.frames), before, w);
    S.ReachesThen(Start(w.frames), before, w, actions, v);
  }

  lemma StartReachable(frames: nat)
    ensures S.Reachable(Start(frames)) && S.Inv(Start(frames))
  {
    S.InvStart(frames);
    W.Stays(Start(frames));
  }

  // What makes a packet fit to be offered in `w`.
  lemma CanOffer(w: World, job: Job, id: nat)
    requires S.Inv(w) && w.xmit.Idle? && !w.queue.stopped && job.Valid()
    requires D.Decided(job, w.books.mss, w.books.tag) && Metered(job, w.books.count, w.frames)
    requires forall k :: 0 <= k < |job.pkt.bufs| ==> job.pkt.bufs[k].len > 0
    ensures RingInv(w) && Enabled(w, Offer(job, SlotsFor(job, id), job.Count())) && job.Count() <= w.ring.Avail()
    ensures w.ring.Shaped() && |SlotsFor(job, id)| == job.Count() <= RING
  {
    hide SlotsFor, Metered, Ready, D.Decided, S.Recorded, S.Counted, S.Balanced, G.Itemised;
    SlotsReady(job, id);
    Few(w, job);
    W.Order(w);
  }

  lemma Few(w: World, job: Job)
    requires Metered(job, w.books.count, w.frames)
    ensures job.Count() <= MAX_DESC_NR
  {
  }

  // The packet sent.
  lemma Sends(w: World, job: Job, id: nat) returns (v: World)
    requires S.Reachable(w) && w.xmit.Idle? && !w.queue.stopped && job.Valid()
    requires D.Decided(job, w.books.mss, w.books.tag) && Metered(job, w.books.count, w.frames)
    requires forall k :: 0 <= k < |job.pkt.bufs| ==> job.pkt.bufs[k].len > 0
    ensures S.Reachable(v) && S.Inv(v) && w.ring.Shaped() && job.Count() <= RING
    ensures var d := A.AfterSend(w, job, SlotsFor(job, id), false, Idle);
      v == d.(missed := w.missed && MAX_DESC_NR <= d.ring.Avail(), queue := A.MaybeStop(d.queue, d.ring, MAX_DESC_NR))
  {
    hide S.Inv, S.Reaches, Enabled, Metered, D.Decided, SlotsFor, A.AfterSend, A.MaybeStop, S.Reachable;
    S.InvReachable(w);
    CanOffer(w, job, id);
    var actions;
    actions, v := A.SendIsRun(w, job, SlotsFor(job, id), job.Count(), false);
    ReachableThen(w, actions, v);
  }

  // ------------------------------------ the device can run ahead of ring->cur

  /** `hw <= cur` is not an invariant: from any state where a packet is being
      written and the device has caught up, it can be ahead of `cur`. */
  lemma DeviceCanPassCur(w: World) returns (actions: seq<Action>, v: World)
    requires RingInv(w) && w.xmit.Writing? && w.ring.hw == w.ring.cur
    ensures S.Reaches(w, actions, v) && v.ring.hw > v.ring.cur
  {
    var u;
    actions, u := A.WriteOut(w, |Script(w.xmit.job)| - w.xmit.k);
    assert HandedAt(u.ring, u.past, u.ring.hw);
    assert Enabled(u, Consume);
    v := Next(u, Consume);
    S.Single(u, Consume);
    S.ReachesThen(w, actions, u, [Consume], v);
    actions := actions + [Consume];
  }

  // One small packet, mapped at address `addr`.
  function Small(addr: nat): Job {
    Job(Packet(false, false, false, 0, 0, 0, 0, 60, 1, 60, [Buf(addr, 60)]), false, false, false)
  }

  lemma SmallIsFirst(addr: nat)
    ensures Small(addr).Valid() && Small(addr).Count() == 1 && Metered(Small(addr), 0, 25) && D.Decided(Small(addr), 0, 0)
  {
  }

  /** Such states exist: a run from the start, with one small packet, leads to
      one. */
  lemma DeviceGetsAhead() returns (v: World)
    ensures S.Reachable(v) && v.ring.hw > v.ring.cur
  {
    hide S.Inv, S.Reaches, Enabled, S.Reachable;
    var w, job := Start(25), Small(4096);
    StartReachable(25);
    SmallIsFirst(4096);
    CanOffer(w, job, 0);
    var a := Offer(job, SlotsFor(job, 0), 1);
    S.Single(w, a);
    RingStep(w, a);
    var o := Next(w, a);
    var actions;
    actions, v := DeviceCanPassCur(o);
    S.ReachesThen(w, [a], o, actions, v);
    ReachableThen(w, [a] + actions, v);
  }

  // `n` descriptors are completed and, in one poll, reclaimed.
  lemma Completed(u: World, n: nat) returns (v: World)
    requires S.Reachable(u) && u.poll.Resting? && u.ring.dirty == u.ring.hw && u.ring.hw + n <= u.ring.cur && n <= MAX_PROC
    ensures S.Reachable(v) && S.Inv(v) && v.poll.Resting? && v.xmit == u.xmit && v.frames == u.frames
    ensures v.ring.dirty == v.ring.hw == u.ring.hw + n && v.ring.cur == u.ring.cur && v.past == u.past.(log := v.past.log)
    ensures v.queue.stopped == (u.queue.stopped && (n == 0 || v.ring.Avail() <= MIN_FREE))
    ensures v.missed == (u.missed || (n > 0 && u.xmit.Halting?))
  {
    hide S.Inv, S.Reaches, S.Reachable, ReclaimN;
    S.InvReachable(u);
    var a, d := W.Drain(u, n);
    ReachableThen(u, a, d);
    v := W.PollWakes(d);
    ReachableThen(d, [PollBegin] + W.Slots(Min(MAX_PROC, d.ring.hw - d.ring.dirty)) + [PollEnd], v);
  }

  // What such a packet leaves behind, once it has been reclaimed.
  lemma LostMapping(v: World)
    requires G.Itemised(v) && v.ring.dirty == 1 && v.xmit.Idle?
    requires v.past.sent == Encode(Small(0)) && v.past.kept == [Slot(Some(0), 0, 60, false, 1, 60)]
    ensures v.ledger.mapped == [Mapping(0, 60, false)] && v.ledger.undone == [] && v.ledger.freed == [0]
    ensures |v.past.sent| == 1 && v.past.sent[0].buf.addr == 0 && !v.past.sent[0].mark.ctxt
  {
    G.EncodedAt(Small(0), 0);
    hide G.Paired, G.AllMade, AllUnmaps, AllFrees, Encode;
    One(v.past.sent, v.past.kept);
    assert v.past.kept[..1] == v.past.kept;
  }

  lemma SmallSlots()
    ensures SlotsFor(Small(0), 0) == [Slot(Some(0), 0, 60, false, 1, 60)]
  {
  }

  lemma One(ds: seq<Desc>, slots: seq<Slot>)
    requires |ds| == |slots| == 1
    ensures G.AllMade(ds, slots) == G.Made(ds[0], slots[0])
    ensures AllUnmaps(slots) == Unmaps(slots[0]) && AllFrees(slots) == Frees(slots[0])
  {
    assert ds[..0] == [] && slots[..0] == [];
  }

  lemma ItemisedIn(w: World)
    requires S.Inv(w)
    ensures G.Itemised(w)
  {
  }

  /** A mapping can be lost: a packet mapped at bus address zero, sent, completed
      and reclaimed, and its mapping not undone. */
  lemma MappingLost() returns (v: World)
    ensures S.Reachable(v) && v.ring.dirty == v.ring.cur == |v.past.sent| == 1 && !G.NoneAtZero(v.past.sent)
    ensures v.ledger.mapped == [Mapping(0, 60, false)] && v.ledger.undone == [] && v.ledger.freed == [0]
  {
    hide S.Inv, S.Reaches, S.Reachable, SlotsFor, Encode, Place, D.Decided, Metered;
    var w, job := Start(25), Small(0);
    StartReachable(25);
    SmallIsFirst(0);
    var u := Sends(w, job, 0);
    assert u.past.sent == [] + Encode(job) && u.past.kept == [] + SlotsFor(job, 0);
    SmallSlots();
    v := Completed(u, 1);
    assert G.Itemised(v) by { ItemisedIn(v); }
    LostMapping(v);
  }

  // -------------------------------------------------------- a ring filled up

  // Four fragments a byte longer than a buffer, and single bytes.
  function Frags(n: nat): (s: seq<nat>)
    ensures |s| == n
  {
    if n == 0 then [] else Frags(n - 1) + [if n <= 4 then MAX_BUF + 1 else 1]
  }

  lemma {:induction false} SumOf(n: nat)
    ensures Sum(Frags(n)) == if n <= 4 then n * (MAX_BUF + 1) else 4 * MAX_BUF + n
    ensures CeilSum(Frags(n), MAX_BUF) == if n <= 4 then 2 * n else 4 + n
  {
    hide Frags, Sum, CeilSum, CeilDiv;
    FragsAre(n);
    NoSum();
    if n > 0 {
      SumOf(n - 1);
      var x := if n <= 4 then MAX_BUF + 1 else 1;
      SumSnoc(Frags(n - 1), x);
      CeilSnoc(Frags(n - 1), x);
    }
  }

  lemma FragsAre(n: nat)
    ensures Frags(n) == if n == 0 then [] else Frags(n - 1) + [if n <= 4 then MAX_BUF + 1 else 1]
  {
  }

  lemma CeilSnoc(s: seq<nat>, x: nat)
    ensures CeilSum(s + [x], MAX_BUF) == CeilSum(s, MAX_BUF) + CeilDiv(x, MAX_BUF)
    ensures CeilDiv(1, MAX_BUF) == 1 && CeilDiv(MAX_BUF + 1, MAX_BUF) == 2
  {
    assert (s + [x])[..|s|] == s;
  }

  /** A packet that needs the most descriptors a packet can: 17 such fragments,
      a header of its own, and a segment size the device has not been told. */
  function Big(mss: nat, segs: nat): Skb { Skb(0, 55, Frags(17), true, true, mss, segs, 54, 20, None) }

  lemma NeedsMost(skb: Skb, curMss: nat)
    requires |skb.frags| == 17 && Sum(skb.frags) == 4 * MAX_BUF + 17 && CeilSum(skb.frags, MAX_BUF) == 21
    requires skb.Tso() && skb.headLen == 55 && skb.hdrLen == 54 && 1 <= skb.gsoSegs < 0x1_0000 && skb.gsoSize != curMss
    ensures skb.WellFormed() && Used(skb, curMss, 0) == MAX_DESC_NR && |Pieces(skb)| == 23
  {
    hide Sum, CeilSum, Split, FragPieces, CeilDiv;
    assert skb.DataStart() == 54;
    SplitCount(Linear, 54, 1);
    FragPiecesCount(skb.frags, 0);
    CeilSnoc(skb.frags, 1);
    assert skb.frags[..0] == [];
    NoSum();
    assert |HeaderPieces(skb)| == 1;
  }

  lemma NoSum()
    ensures Sum([]) == 0 && CeilSum([], MAX_BUF) == 0
  {
  }

  /** MAC_TX_MAX_DESC_NR descriptors can really be needed. */
  lemma WorstCaseAttained(mss: nat, segs: nat, curMss: nat)
    requires 1 <= segs < 0x1_0000 && mss != curMss
    ensures Big(mss, segs).WellFormed() && Used(Big(mss, segs), curMss, 0) == MAX_DESC_NR && |Pieces(Big(mss, segs))| == 23
  {
    hide Sum, CeilSum, Split, FragPieces, Frags, Used, Pieces;
    SumOf(17);
    NeedsMost(Big(mss, segs), curMss);
  }

  function Addresses(): M.Answers { seq(23, _ => Some(4096)) }

  // The packet as the driver offers it.
  lemma BigJob(mss: nat, segs: nat, ic: bool, curMss: nat, count: nat, frames: nat) returns (job: Job)
    requires 1 <= segs < 0x1_0000 && mss != curMss
    requires ic == C.Interrupts(C.Counted(count, segs), segs, frames)
    ensures job.Valid() && job.Count() == 24 && D.Decided(job, curMss, 0) && Metered(job, count, frames)
    ensures forall k :: 0 <= k < |job.pkt.bufs| ==> job.pkt.bufs[k].len > 0
    ensures job.pkt.txPackets == segs && job.interrupt == ic && D.NextMss(job, curMss) == mss && D.NextTag(job, 0) == 0
  {
    hide Frags, Pieces, C.Interrupts, C.Counted, Metered, D.NextMss, D.NextTag, D.Decided, Used;
    WorstCaseAttained(mss, segs, curMss);
    job := JobFor(Big(mss, segs), ic, curMss, count, frames);
  }

  lemma JobFor(skb: Skb, ic: bool, curMss: nat, count: nat, frames: nat) returns (job: Job)
    requires skb.WellFormed() && |Pieces(skb)| == 23 && skb.Tso() && skb.tag.None? && skb.gsoSize != curMss
    requires ic == C.Interrupts(C.Counted(count, skb.gsoSegs), skb.gsoSegs, frames)
    ensures job.Valid() && job.Count() == 24 && D.Decided(job, curMss, 0) && Metered(job, count, frames)
    ensures forall k :: 0 <= k < |job.pkt.bufs| ==> job.pkt.bufs[k].len > 0
    ensures job.pkt.txPackets == skb.gsoSegs && job.interrupt == ic && D.NextMss(job, curMss) == skb.gsoSize && D.NextTag(job, 0) == 0
  {
    M.PiecesNonEmpty(skb);
    I.WorstCase();
    hide Pieces, C.Interrupts, C.Counted, Sum, MAX_DESC_NR;
    job := Job(M.PacketOf(skb, Addresses()), true, false, ic);
  }

  // Frame settings that let a full ring go unmarked: zero, or too large.
  predicate Sparse(f: nat) { f == 0 || 150 < f <= RING }

  // The k-th packet of the flood carries `f` frames if it is among the first
  // twenty, unless `f` is zero, and one otherwise.
  function Segs(f: nat, k: nat): nat { if k < 20 && f != 0 then f else 1 }

  function CountAfter(f: nat, k: nat): nat { if f == 0 then k else if k <= 20 then k * f else 20 * f + (k - 20) }

  predicate Asks(f: nat, k: nat) { C.Interrupts(CountAfter(f, k + 1), Segs(f, k), f) }

  function MssOf(k: nat): nat { 1 + k % 2 }

  const PACKETS: nat := 170

  /** `k` packets sent, the device and the reclaimer standing still. */
  ghost predicate Flooded(w: World, f: nat, k: nat) {
    && S.Reachable(w) && w.frames == f && w.xmit.Idle? && w.poll.Resting?
    && w.ring.cur == 24 * k && w.ring.dirty == 0 && w.ring.hw == 0
    && w.books.mss == (if k == 0 then 0 else MssOf(k - 1)) && w.books.tag == 0 && w.books.count == CountAfter(f, k)
    && (k < PACKETS ==> !w.queue.stopped) && (k == PACKETS ==> w.queue.stopped && !w.missed)
    && |w.past.sent| == 24 * k && (Sparse(f) ==> Unmarked(w.past.sent))
  }

  ghost predicate Unmarked(ds: seq<Desc>) { forall i :: 480 <= i < |ds| ==> !ds[i].mark.ic }

  // Which of them ask for an interrupt: at most the first twenty.
  lemma MarkedAt(f: nat, k: nat)
    requires f <= RING && k < PACKETS
    ensures C.Counted(CountAfter(f, k), Segs(f, k)) == CountAfter(f, k + 1)
    ensures Sparse(f) ==> (Asks(f, k) <==> k < 20 && f != 0)
  {
    var after := CountAfter(f, k + 1);
    if !Sparse(f) || f == 0 {
    } else if k < 20 {
      assert after == k * f + f == (k + 1) * f;
      C.ModUnique(after, k + 1, 0, f);
    } else {
      C.ModUnique(after, 20, k - 19, f);
    }
  }

  lemma StaysUnmarked(ds: seq<Desc>, job: Job)
    requires Unmarked(ds) && job.Valid() && (job.interrupt ==> |ds| + job.Count() <= 480)
    ensures Unmarked(ds + Encode(job))
  {
    forall i | 480 <= i < |ds + Encode(job)| ensures !(ds + Encode(job))[i].mark.ic {
      if i >= |ds| {
        assert Encode(job)[i - |ds|] == Encoded(job, i - |ds|);
      }
    }
  }

  // One packet more.
  lemma FloodStep(w: World, f: nat, k: nat) returns (v: World)
    requires f <= RING && k < PACKETS && Flooded(w, f, k)
    ensures Flooded(v, f, k + 1)
  {
    hide S.Inv, S.Reachable, SlotsFor, Metered, Encode, Place, D.Decided, D.NextMss, D.NextTag, C.Interrupts, C.Counted, CountAfter, Unmarked;
    MarkedAt(f, k);
    OtherMss(k);
    I.WorstCase();
    hide MssOf, Segs, MAX_DESC_NR;
    var job := BigJob(MssOf(k), Segs(f, k), Asks(f, k), w.books.mss, w.books.count, f);
    v := Sends(w, job, 0);
    if Sparse(f) {
      StaysUnmarked(w.past.sent, job);
    }
    EncodedLength(job);
  }

  lemma OtherMss(k: nat)
    ensures MssOf(k) != 0 && (k > 0 ==> MssOf(k) != MssOf(k - 1))
    ensures forall f: nat :: f <= RING ==> 1 <= Segs(f, k) < 0x1_0000
  {
  }

  lemma EncodedLength(job: Job)
    requires job.Valid()
    ensures |Encode(job)| == job.Count()
  {
  }

  lemma {:induction false} Flood(f: nat, k: nat) returns (w: World)
    requires f <= RING && k <= PACKETS
    ensures Flooded(w, f, k)
  {
    if k == 0 {
      w := Start(f);
      StartReachable(f);
    } else {
      var u := Flood(f, k - 1);
      w := FloodStep(u, f, k - 1);
    }
  }

  /** For a setting of zero and every one above 150 there is a stopped queue none
      of whose outstanding descriptors asks for an interrupt: twenty packets that
      may, then 150 that do not fill the ring; the first twenty are completed and
      reclaimed, which frees too little to wake the queue. */
  lemma NoneAsks(f: nat) returns (v: World)
    requires Sparse(f)
    ensures S.Reachable(v) && v.frames == f && I.Waiting(v) && !I.Marked(v)
  {
    hide S.Inv, S.Reachable;
    var u := Flood(f, PACKETS);
    v := Completed(u, 480);
    StillUnmarked(v);
  }

  lemma StillUnmarked(v: World)
    requires S.Inv(v) && v.xmit.Idle? && v.ring.dirty == 480 && Unmarked(v.past.sent)
    ensures !I.Marked(v)
  {
    forall i: nat | v.ring.dirty <= i < v.ring.cur ensures v.ring.Shaped() && !v.ring.D(i).mark.ic {
      I.Outstanding(v, i);
    }
  }

  /** Among the settings the driver accepts, those from 1 to 150, and no others,
      make sure that a stopped queue has a completion interrupt coming. */
  lemma InterruptBound(f: nat)
    requires f <= RING
    ensures (forall w :: S.Reachable(w) && w.frames == f && I.Waiting(w) ==> I.Marked(w)) <==> 1 <= f <= 150
  {
    hide S.Reachable, I.Marked;
    if 1 <= f <= 150 {
      forall w | S.Reachable(w) && w.frames == f && I.Waiting(w) ensures I.Marked(w) {
        I.InterruptOutstanding(w);
      }
    } else {
      var v := NoneAsks(f);
      assert S.Reachable(v) && v.frames == f && I.Waiting(v) && !I.Marked(v);
    }
  }

  // --------------------------------------------------- the lost wake-up

  // The ring fills up, and the check has just found too little room.
  lemma FullAndHalting(f: nat) returns (u: World)
    requires f <= RING
    ensures S.Reachable(u) && u.frames == f && u.xmit.Halting? && u.poll.Resting? && u.ring.cur == 4080 && u.ring.dirty == u.ring.hw == 0
  {
    hide S.Inv, S.Reaches, S.Reachable, SlotsFor, Metered, Encode, Place, D.Decided, D.NextMss, D.NextTag, C.Interrupts, C.Counted, CountAfter;
    var k := PACKETS - 1;
    var w := Flood(f, k);
    MarkedAt(f, k);
    var job := BigJob(MssOf(k), Segs(f, k), Asks(f, k), w.books.mss, w.books.count, f);
    S.InvReachable(w);
    CanOffer(w, job, 0);
    var actions, d := A.SendToCheck(w, job, SlotsFor(job, 0), 24, false);
    ReachableThen(w, actions, d);
    Halts(d);
    S.Single(d, Advance(false));
    u := Next(d, Advance(false));
    ReachableThen(d, [Advance(false)], u);
  }

  lemma Halts(d: World)
    requires RingInv(d) && d.xmit.Checking? && d.ring.Avail() < MAX_DESC_NR
    ensures Enabled(d, Advance(false)) && Next(d, Advance(false)) == d.(xmit := Halting, missed := false)
  {
  }

  /** A wake-up can be lost, with any setting: the ring is full, and between the check that finds
      it so and the stop, the device completes everything and two polls reclaim
      it, neither finding a stopped queue to wake. Nothing that can happen then
      wakes it. */
  lemma WakeUpLost(f: nat) returns (v: World)
    requires f <= RING
    ensures S.Reachable(v) && v.frames == f && v.queue.stopped && v.missed
    ensures v.poll.Resting? && v.ring.dirty == v.ring.hw == v.ring.cur
    ensures forall actions, u :: S.Reaches(v, actions, u) ==> u.queue.stopped
  {
    hide S.Inv, S.Reaches, S.Reachable;
    var u := FullAndHalting(f);
    u := Completed(u, MAX_PROC);
    u := Completed(u, 4080 - MAX_PROC);
    W.StopStrands(u, false);
    W.ReachableNext(u, Advance(false));
    v := Next(u, Advance(false));
  }
}
