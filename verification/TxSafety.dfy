/** What holds of the transmit path in every reachable state, for every
    interleaving of the sender, the device and the reclaimer. */
module TxSafety {
  import opened Common
  import opened TxWire
  import opened TxLedger
  import opened TxProtocol
  import opened TxSlots
  import C = TxCoalesce
  import D = TxDevice
  import TxPacket

  ghost predicate Reaches(w: World, actions: seq<Action>, v: World)
    decreases |actions|
  {
    if actions == [] then w == v
    else Enabled(w, actions[0]) && Reaches(Next(w, actions[0]), actions[1..], v)
  }

  ghost predicate Reachable(v: World) {
    exists actions :: Reaches(Start(v.frames), actions, v)
  }

  lemma {:induction false} ReachesThen(w: World, a: seq<Action>, v: World, b: seq<Action>, u: World)
    requires Reaches(w, a, v) && Reaches(v, b, u)
    ensures Reaches(w, a + b, u)
    decreases |a|
  {
    hide Enabled, Next;
    if a == [] {
      assert a + b == b;
    } else {
      ReachesThen(Next(w, a[0]), a[1..], v, b, u);
      assert (a + b)[1..] == a[1..] + b;
    }
  }

  lemma StepFirst(w: World, a: Action, rest: seq<Action>, v: World)
    requires Enabled(w, a) && Reaches(Next(w, a), rest, v)
    ensures Reaches(w, [a] + rest, v)
  {
    assert ([a] + rest)[0] == a && ([a] + rest)[1..] == rest;
  }

  lemma Single(w: World, a: Action)
    requires Enabled(w, a)
    ensures Reaches(w, [a], Next(w, a))
  {
    assert [a][1..] == [];
    assert Reaches(Next(w, a), [], Next(w, a));
  }

  // ------------------------------------------------------ decided in order

  // The sender's record of the device's memory matches its history.
  ghost predicate Recorded(w: World) {
    && D.History(w.past.jobs)
    && w.past.sent == D.Stream(w.past.jobs)
    && w.books.mss == D.CurMss(w.past.jobs) && w.books.tag == D.CurTag(w.past.jobs)
    && (w.xmit.Writing? ==> D.Decided(w.xmit.job, w.books.mss, w.books.tag))
  }

  lemma HistorySnoc(jobs: seq<Job>, job: Job)
    requires D.History(jobs) && job.Valid() && D.Decided(job, D.CurMss(jobs), D.CurTag(jobs))
    ensures D.History(jobs + [job])
    ensures D.Stream(jobs + [job]) == D.Stream(jobs) + Encode(job)
    ensures D.CurMss(jobs + [job]) == D.NextMss(job, D.CurMss(jobs))
    ensures D.CurTag(jobs + [job]) == D.NextTag(job, D.CurTag(jobs))
  {
    var all := jobs + [job];
    assert all[..|jobs|] == jobs;
    forall j | 0 <= j < |all| ensures all[j].Valid() && D.Decided(all[j], D.CurMss(all[..j]), D.CurTag(all[..j])) {
      if j < |jobs| {
        assert all[..j] == jobs[..j];
      }
    }
  }

  lemma RecordedStep(w: World, a: Action)
    requires RingInv(w) && Recorded(w) && Enabled(w, a)
    ensures Recorded(Next(w, a))
  {
    hide RingInv, Script, Put, Encode, Place, MappingsOf, Leftovers, Live, Metered;
    hide D.History, D.Stream, D.CurMss, D.CurTag, D.Decided, D.NextMss, D.NextTag;
    if a.Advance? && w.xmit.Writing? && w.xmit.k + 1 == |Script(w.xmit.job)| {
      HistorySnoc(w.past.jobs, w.xmit.job);
    }
  }

  // --------------------------------------------------------- frame counting

  function FramesOf(jobs: seq<Job>): seq<nat> {
    seq(|jobs|, j requires 0 <= j < |jobs| => jobs[j].pkt.txPackets)
  }

  // The count of frames after a history, and those waiting for an interrupt.
  function LineOf(jobs: seq<Job>, frames: nat): C.Line {
    C.QueueAll(C.Line(0, 0), FramesOf(jobs), frames)
  }

  // Every packet was counted after the ones before it.
  ghost predicate Paced(jobs: seq<Job>, frames: nat) {
    forall j :: 0 <= j < |jobs| ==> Metered(jobs[j], LineOf(jobs[..j], frames).count, frames)
  }

  ghost predicate Counted(w: World) {
    && Paced(w.past.jobs, w.frames) && w.books.count == LineOf(w.past.jobs, w.frames).count
    && (w.xmit.Writing? ==> Metered(w.xmit.job, w.books.count, w.frames))
  }

  lemma LineSnoc(jobs: seq<Job>, job: Job, frames: nat)
    ensures LineOf(jobs + [job], frames) == C.Queue(LineOf(jobs, frames), job.pkt.txPackets, frames)
  {
    assert FramesOf(jobs + [job]) == FramesOf(jobs) + [job.pkt.txPackets];
    assert (FramesOf(jobs) + [job.pkt.txPackets])[..|jobs|] == FramesOf(jobs);
  }

  lemma PacedSnoc(jobs: seq<Job>, job: Job, frames: nat)
    requires Paced(jobs, frames) && Metered(job, LineOf(jobs, frames).count, frames)
    ensures Paced(jobs + [job], frames)
  {
    hide LineOf, Metered;
    var all := jobs + [job];
    assert all[..|jobs|] == jobs;
    forall j | 0 <= j < |all| ensures Metered(all[j], LineOf(all[..j], frames).count, frames) {
      if j < |jobs| {
        assert all[..j] == jobs[..j];
      }
    }
  }

  lemma CountedStep(w: World, a: Action)
    requires RingInv(w) && Counted(w) && Enabled(w, a)
    ensures Counted(Next(w, a))
  {
    hide RingInv, Script, Put, Encode, Place, Metered, LineOf, Paced;
    if a.Advance? && w.xmit.Writing? && w.xmit.k + 1 == |Script(w.xmit.job)| {
      LineSnoc(w.past.jobs, w.xmit.job, w.frames);
      PacedSnoc(w.past.jobs, w.xmit.job, w.frames);
    }
  }

  // ------------------------------------------ bytes and frames, accounted for

  // What the last descriptors of a run of ring entries have recorded.
  function Owed(ds: seq<Desc>, ss: seq<Slot>, m: Measure): nat
    requires |ds| == |ss|
  {
    if ds == [] then 0
    else
      var n := |ds| - 1;
      Owed(ds[..n], ss[..n], m) + (if ds[n].mark.ld then Noted(ss[n], m) else 0)
  }

  lemma {:induction false} OwedConcat(a: seq<Desc>, s: seq<Slot>, b: seq<Desc>, t: seq<Slot>, m: Measure)
    requires |a| == |s| && |b| == |t|
    ensures Owed(a + b, s + t, m) == Owed(a, s, m) + Owed(b, t, m)
  {
    if b == [] {
      assert a + b == a && s + t == s;
    } else {
      var n := |b| - 1;
      OwedConcat(a, s, b[..n], t[..n], m);
      assert (a + b)[..|a| + n] == a + b[..n] && (s + t)[..|a| + n] == s + t[..n];
    }
  }

  lemma {:induction false} OwedNone(ds: seq<Desc>, ss: seq<Slot>, m: Measure)
    requires |ds| == |ss| && forall i :: 0 <= i < |ds| ==> !ds[i].mark.ld
    ensures Owed(ds, ss, m) == 0
  {
    if ds != [] {
      OwedNone(ds[..|ds| - 1], ss[..|ds| - 1], m);
    }
  }

  function Due(p: Packet, m: Measure): nat {
    match m case Bytes => p.txBytes case Frames => p.txPackets
  }

  lemma OwedJob(job: Job, slots: seq<Slot>, m: Measure)
    requires Ready(job, slots)
    ensures Owed(Encode(job), slots, m) == Due(job.pkt, m)
  {
    var ds := Encode(job);
    var n := |ds| - 1;
    assert ds[n] == Encoded(job, n);
    forall i | 0 <= i < n ensures !ds[..n][i].mark.ld {
      assert ds[i] == Encoded(job, i);
    }
    OwedNone(ds[..n], slots[..n], m);
  }

  // Bytes announced to the stack but not yet on a published descriptor.
  function Pending(x: Xmit): nat {
    if x.Writing? then x.job.pkt.txBytes else 0
  }

  // What the reclaimer has picked up but not yet reported.
  function PickedUp(p: Poll, m: Measure): nat {
    if p.Resting? then 0 else match m case Bytes => p.bytes case Frames => p.packets
  }

  // What the stack has been told is complete.
  function Reported(b: Books, m: Measure): nat {
    match m case Bytes => b.completed case Frames => b.reported
  }

  // What reclaimed slots had recorded has been reported or is about to be.
  ghost predicate Settled(w: World, m: Measure)
    requires |w.past.sent| == |w.past.kept| && w.ring.dirty <= |w.past.sent|
  {
    && (w.poll.Polling? && w.poll.processed == 0 ==> PickedUp(w.poll, m) == 0)
    && Reported(w.books, m) + PickedUp(w.poll, m) == Owed(w.past.sent[..w.ring.dirty], w.past.kept[..w.ring.dirty], m)
  }

  ghost predicate Balanced(w: World) {
    && |w.past.sent| == |w.past.kept| && w.ring.dirty <= |w.past.sent|
    && w.books.queued == Owed(w.past.sent, w.past.kept, Bytes) + Pending(w.xmit)
    && Sum(FramesOf(w.past.jobs)) == Owed(w.past.sent, w.past.kept, Frames)
    && Settled(w, Bytes) && Settled(w, Frames)
  }

  lemma BalancedPublish(p: Past, job: Job, slots: seq<Slot>, dirty: nat, m: Measure)
    requires Ready(job, slots) && |p.sent| == |p.kept| && dirty <= |p.sent|
    ensures var q := Publish(p, job, slots);
      && |q.sent| == |q.kept| >= dirty && Owed(q.sent, q.kept, m) == Owed(p.sent, p.kept, m) + Due(job.pkt, m)
      && q.sent[..dirty] == p.sent[..dirty] && q.kept[..dirty] == p.kept[..dirty]
  {
    OwedJob(job, slots, m);
    OwedConcat(p.sent, p.kept, Encode(job), slots, m);
  }

  lemma FramesSnoc(jobs: seq<Job>, job: Job)
    ensures Sum(FramesOf(jobs + [job])) == Sum(FramesOf(jobs)) + job.pkt.txPackets
  {
    assert FramesOf(jobs + [job]) == FramesOf(jobs) + [job.pkt.txPackets];
    SumSnoc(FramesOf(jobs), job.pkt.txPackets);
  }

  lemma OwedSnoc(ds: seq<Desc>, ss: seq<Slot>, i: nat, m: Measure)
    requires |ds| == |ss| && i < |ds|
    ensures Owed(ds[..i + 1], ss[..i + 1], m) == Owed(ds[..i], ss[..i], m) + if ds[i].mark.ld then Noted(ss[i], m) else 0
  {
    assert ds[..i + 1][..i] == ds[..i] && ss[..i + 1][..i] == ss[..i];
  }

  lemma SettledReclaim(w: World, m: Measure)
    requires RingInv(w) && Enabled(w, PollSlot)
    requires |w.past.sent| == |w.past.kept| && w.ring.dirty <= |w.past.sent| && Settled(w, m)
    ensures var v := Next(w, PollSlot);
      v.past == w.past && v.ring.dirty <= |v.past.sent| && v.books == w.books && v.xmit == w.xmit && Settled(v, m)
  {
    assert HandedAt(w.ring, w.past, w.ring.dirty);
    OwedSnoc(w.past.sent, w.past.kept, w.ring.dirty, m);
  }

  lemma BalancedPoll(w: World, a: Action)
    requires RingInv(w) && Balanced(w) && Enabled(w, a) && (a.PollBegin? || a.PollSlot? || a.PollEnd?)
    ensures Balanced(Next(w, a))
  {
    hide RingInv, Unmaps, Frees, Owed, Sum, FramesOf;
    if a.PollSlot? {
      hide Settled;
      SettledReclaim(w, Bytes);
      SettledReclaim(w, Frames);
    }
  }

  lemma BalancedHandOver(w: World, hold: bool)
    requires Balanced(w) && Enabled(w, Advance(hold)) && w.xmit.Writing? && w.xmit.k + 1 == |Script(w.xmit.job)|
    ensures Balanced(Next(w, Advance(hold)))
  {
    hide Script, Put, Encode, Owed, Sum, FramesOf, D.NextMss, D.NextTag, C.Counted, Ready, Settled;
    BalancedPublish(w.past, w.xmit.job, w.xmit.slots, w.ring.dirty, Bytes);
    BalancedPublish(w.past, w.xmit.job, w.xmit.slots, w.ring.dirty, Frames);
    FramesSnoc(w.past.jobs, w.xmit.job);
    var v := Next(w, Advance(hold));
    SameSettled(w, v, Bytes);
    SameSettled(w, v, Frames);
  }

  lemma SameSettled(w: World, v: World, m: Measure)
    requires |w.past.sent| == |w.past.kept| && w.ring.dirty <= |w.past.sent| && Settled(w, m)
    requires |v.past.sent| == |v.past.kept| && v.ring.dirty == w.ring.dirty <= |v.past.sent| && v.poll == w.poll
    requires v.past.sent[..w.ring.dirty] == w.past.sent[..w.ring.dirty] && v.past.kept[..w.ring.dirty] == w.past.kept[..w.ring.dirty]
    requires v.books.completed == w.books.completed && v.books.reported == w.books.reported
    ensures Settled(v, m)
  {
  }

  lemma BalancedXmit(w: World, hold: bool)
    requires Balanced(w) && Enabled(w, Advance(hold))
    ensures Balanced(Next(w, Advance(hold)))
  {
    hide Script, Put, Encode, Owed, Sum, FramesOf, D.NextMss, D.NextTag, Handing, Stopping, SlotOf;
    if w.xmit.Writing? && w.xmit.k + 1 == |Script(w.xmit.job)| {
      BalancedHandOver(w, hold);
    }
  }

  lemma BalancedElse(w: World, a: Action)
    requires RingInv(w) && Balanced(w) && Enabled(w, a) && (a.Consume? || a.Offer? || a.Refuse? || a.TurnAway?)
    ensures Balanced(Next(w, a))
  {
    hide RingInv, Ready, Metered, Place, MappingsOf, Leftovers, Live, Owed, Sum, FramesOf, D.Decided;
  }

  lemma BalancedStep(w: World, a: Action)
    requires RingInv(w) && Balanced(w) && Enabled(w, a)
    ensures Balanced(Next(w, a))
  {
    hide RingInv, Balanced, Enabled, Next;
    match a
    case Advance(hold) => BalancedXmit(w, hold);
    case PollBegin => BalancedPoll(w, a);
    case PollSlot => BalancedPoll(w, a);
    case PollEnd => BalancedPoll(w, a);
    case _ => BalancedElse(w, a);
  }

  // --------------------------------------------------- stopping and waking

  // No reclaimer is at work that is going to look at the queue.
  predicate Unwatched(p: Poll) { p.Resting? || p.processed == 0 }

  predicate Controlled(w: World) {
    && (w.queue.stopped ==> w.xmit.Idle? && !w.queue.more)
    && (w.xmit.Idle? && !w.queue.stopped ==> w.ring.Avail() >= TxPacket.MAX_DESC_NR)
    && ((w.queue.stopped || w.xmit.Halting?) && !w.missed && Unwatched(w.poll) ==> w.ring.Avail() <= MIN_FREE)
    && (!w.queue.more && !w.xmit.Advanced? ==> w.queue.doorbell == w.ring.cur)
  }

  lemma ControlledStep(w: World, a: Action)
    requires RingInv(w) && Controlled(w) && Enabled(w, a)
    ensures Controlled(Next(w, a))
  {
    hide RingInv, Script, Ready, Put, Encode, Place, MappingsOf, Leftovers, Live, Unmaps, Frees, Publish, Metered;
  }

  // ------------------------------------------------------------- every run

  ghost predicate Inv(w: World) {
    RingInv(w) && Recorded(w) && Counted(w) && Balanced(w) && Itemised(w) && Controlled(w)
  }

  lemma InvStart(frames: nat)
    ensures Inv(Start(frames))
  {
    RingStart(frames);
  }

  lemma {:induction false} InvStep(w: World, a: Action)
    requires Inv(w) && Enabled(w, a)
    ensures Inv(Next(w, a)) && Next(w, a).frames == w.frames
  {
    hide RingInv, Recorded, Counted, Balanced, Itemised, Controlled;
    RingStep(w, a);
    RecordedStep(w, a);
    CountedStep(w, a);
    BalancedStep(w, a);
    ItemisedStep(w, a);
    ControlledStep(w, a);
  }

  lemma {:induction false} InvRun(w: World, actions: seq<Action>, v: World)
    requires Inv(w) && Reaches(w, actions, v)
    ensures Inv(v) && v.frames == w.frames
    decreases |actions|
  {
    hide Inv, Enabled, Next;
    if actions != [] {
      InvStep(w, actions[0]);
      InvRun(Next(w, actions[0]), actions[1..], v);
    }
  }

  lemma InvReachable(v: World)
    requires Reachable(v)
    ensures Inv(v)
  {
    InvStart(v.frames);
    var actions :| Reaches(Start(v.frames), actions, v);
    InvRun(Start(v.frames), actions, v);
  }

  // ------------------------------------------------------------ consequences

  /** In every reachable state the window is in order and no wider than the
      ring; the device is past `cur` only between the write of the first OWN
      bit and the store to `cur`; and outside the window every descriptor is
      reset and every slot without buffer and without packet. */
  lemma WindowInOrder(w: World)
    requires Reachable(w)
    ensures w.ring.Shaped()
    ensures w.ring.dirty <= w.ring.hw && w.ring.dirty <= w.ring.cur <= w.ring.dirty + RING
    ensures w.ring.hw > w.ring.cur ==> w.xmit.Published? && w.ring.hw <= w.ring.cur + w.xmit.job.Count()
    ensures forall i: nat :: End(w.ring, w.xmit) <= i < w.ring.dirty + RING ==> ClearAt(w.ring, i)
  {
    InvReachable(w);
  }

  /** A slot is only ever reclaimed after the device completed it. */
  lemma ReclaimsOnlyCompleted(w: World)
    requires Reachable(w) && Enabled(w, PollSlot)
    ensures w.ring.dirty < w.ring.hw == |w.past.log|
    ensures w.ring.D(w.ring.dirty) == w.past.log[w.ring.dirty].(own := false)
  {
    InvReachable(w);
    ReclaimKeeps(w.ring, w.xmit, w.past);
    assert HandedAt(w.ring, w.past, w.ring.dirty);
  }

  /** Reclaiming a buffer's slot resets it if and only if the buffer was not
      mapped at bus address zero; its length is left behind otherwise. */
  lemma ReclaimResets(w: World)
    requires Reachable(w) && Enabled(w, PollSlot) && !w.ring.D(w.ring.dirty).mark.ctxt
    ensures var i := w.ring.dirty;
      Next(w, PollSlot).ring.Shaped() && (Next(w, PollSlot).ring.S(i) == EMPTY <==> w.ring.D(i).buf.addr != 0)
  {
    InvReachable(w);
    assert HandedAt(w.ring, w.past, w.ring.dirty);
    assert PairedAt(w.past.sent, w.past.kept, w.ring.dirty);
  }

  /** In every reachable state, the mappings undone by the reclaimer are exactly
      those made for the buffers reclaimed so far, each with its kind and length
      and in order, if and only if none of these was made at bus address zero. */
  lemma MappingsUndone(w: World)
    requires Reachable(w)
    ensures |w.past.sent| == |w.past.kept| && w.ring.dirty <= |w.past.sent|
    ensures var n := w.ring.dirty;
      w.ledger.undone == AllMade(w.past.sent[..n], w.past.kept[..n]) <==> NoneAtZero(w.past.sent[..n])
  {
    InvReachable(w);
    PairedPrefix(w.past.sent, w.past.kept, w.ring.dirty);
    UnmapsAreLive(w.past.sent[..w.ring.dirty], w.past.kept[..w.ring.dirty]);
    LiveIff(AllMade(w.past.sent[..w.ring.dirty], w.past.kept[..w.ring.dirty]));
  }

  /** Conservation of mappings: in every reachable state, each mapping made has
      been undone once, is outstanding, or was made at bus address zero for a
      buffer that is gone. */
  lemma MappingsConserved(w: World)
    requires Reachable(w)
    ensures w.ring.Shaped() && w.ring.dirty <= Tail(w.ring, w.xmit) == |w.past.sent| == |w.past.kept|
    ensures multiset(w.ledger.mapped) + multiset(w.ledger.refused) ==
            multiset(w.ledger.undone) + multiset(w.ledger.back) + multiset(Held(w)) + multiset(AtZero(Gone(w)))
    ensures AtZero(Gone(w)) == [] <==> NonZero(Gone(w))
  {
    hide RingInv, Paired, AllMade, AllUnmaps, Live, AtZero, NonZero, MappingsIn, PacketsIn, Recorded, Counted, Balanced, Controlled;
    InvReachable(w);
    RingAndRest(w);
    var n, sent, kept := w.ring.dirty, w.past.sent, w.past.kept;
    PairedPrefix(sent, kept, n);
    UnmapsAreLive(sent[..n], kept[..n]);
    LiveIff(Gone(w));
    Accounted(AllMade(sent[..n], kept[..n]), w.ledger.refused, MappingsIn(w.ring, n, Tail(w.ring, w.xmit) - n), PendingMappings(w.xmit));
  }

  /** Every packet accepted is freed exactly once, in order, with its last
      descriptor: those accepted are those freed by the reclaimer, followed by
      those in the ring, where the last descriptor of a packet, and no other,
      has it. */
  lemma PacketsFreed(w: World)
    requires Reachable(w)
    ensures w.ring.Shaped() && w.ring.dirty <= Tail(w.ring, w.xmit)
    ensures |AllFrees(w.past.kept)| == |w.past.jobs|
    ensures AllFrees(w.past.kept) == w.ledger.freed + PacketsIn(w.ring, w.ring.dirty, Tail(w.ring, w.xmit) - w.ring.dirty)
    ensures forall i: nat :: w.ring.dirty <= i < Tail(w.ring, w.xmit) ==> (w.ring.S(i).skb.Some? <==> w.ring.D(i).mark.ld)
  {
    hide RingInv, AllMade, AllUnmaps, AllFrees, MappingsIn, PacketsIn, Recorded, Counted, Balanced, Controlled;
    InvReachable(w);
    RingAndRest(w);
    StillThere(w);
    forall i: nat | w.ring.dirty <= i < |w.past.sent| ensures w.ring.S(i).skb.Some? <==> w.ring.D(i).mark.ld {
      assert PairedAt(w.past.sent, w.past.kept, i) && StillAt(w.ring, w.past.sent, w.past.kept, i);
    }
  }

  /** The device reads each descriptor of each packet exactly once, complete,
      in order: what it has read is a prefix of the packets' encodings. */
  lemma DeviceReadsPackets(w: World)
    requires Reachable(w)
    ensures D.History(w.past.jobs) && w.past.log <= D.Stream(w.past.jobs)
    ensures |w.past.log| == w.ring.hw
    ensures w.xmit.Idle? ==> |D.Stream(w.past.jobs)| == w.ring.cur
  {
    InvReachable(w);
  }

  /** End to end: the packets the device puts on the wire are a prefix of the
      packets accepted, and all of them once it has caught up. */
  lemma SentAsAccepted(w: World)
    requires Reachable(w)
    ensures var out := D.Run(D.RESET, w.past.log).frames;
      && out <= D.WireFrames(w.past.jobs)
      && (w.ring.hw == |w.past.sent| ==> out == D.WireFrames(w.past.jobs))
  {
    DeviceReadsPackets(w);
    InvReachable(w);
    D.DecodeStream(w.past.jobs);
    D.RunPrefix(D.RESET, D.Stream(w.past.jobs), w.ring.hw);
    if w.ring.hw == |w.past.sent| {
      assert w.past.sent[..w.ring.hw] == w.past.sent;
    }
  }

  // What the last descriptors of ring entries [low, low + n) have recorded.
  function InRing(r: Ring, low: nat, n: nat, m: Measure): nat
    requires r.Shaped()
  {
    if n == 0 then 0
    else InRing(r, low, n - 1, m) + (if r.D(low + n - 1).mark.ld then Noted(r.S(low + n - 1), m) else 0)
  }

  predicate SameRecord(r: Ring, sent: seq<Desc>, kept: seq<Slot>, i: nat)
    requires r.Shaped() && i < |sent| == |kept|
  {
    r.D(i).mark.ld == sent[i].mark.ld && r.S(i) == kept[i]
  }

  lemma {:induction false} InRingIsOwed(r: Ring, sent: seq<Desc>, kept: seq<Slot>, n: nat, m: Measure)
    requires r.Shaped() && |sent| == |kept| && r.dirty + n <= |sent|
    requires forall i: nat :: r.dirty <= i < r.dirty + n ==> SameRecord(r, sent, kept, i)
    ensures InRing(r, r.dirty, n, m) == Owed(sent[..r.dirty + n], kept[..r.dirty + n], m) - Owed(sent[..r.dirty], kept[..r.dirty], m)
  {
    if n > 0 {
      InRingIsOwed(r, sent, kept, n - 1, m);
      OwedSnoc(sent, kept, r.dirty + n - 1, m);
      assert SameRecord(r, sent, kept, r.dirty + n - 1);
    }
  }

  lemma RecordsKept(r: Ring, x: Xmit, p: Past)
    requires Sound(r, x, p)
    ensures forall i: nat :: r.dirty <= i < Tail(r, x) ==> SameRecord(r, p.sent, p.kept, i)
  {
    forall i: nat | r.dirty <= i < Tail(r, x) ensures SameRecord(r, p.sent, p.kept, i) {
      assert HandedAt(r, p, i);
    }
  }

  // What the packets in the ring have recorded.
  function Outstanding(w: World, m: Measure): nat
    requires w.ring.Shaped() && w.ring.dirty <= Tail(w.ring, w.xmit)
  {
    InRing(w.ring, w.ring.dirty, Tail(w.ring, w.xmit) - w.ring.dirty, m)
  }

  /** Conservation: bytes announced as queued are the bytes reported complete,
      plus those on packets in the ring, plus those held by a sender or a
      reclaimer that is in the middle of its work. */
  lemma BytesConserved(w: World)
    requires Reachable(w)
    ensures w.ring.Shaped() && w.ring.dirty <= Tail(w.ring, w.xmit)
    ensures w.books.queued == w.books.completed + Outstanding(w, Bytes) + Pending(w.xmit) + PickedUp(w.poll, Bytes)
  {
    InvReachable(w);
    AllInRing(w, Bytes);
  }

  /** And of frames: those of the packets handed over are the frames reported
      complete, those on packets in the ring, and those a reclaimer holds. */
  lemma FramesConserved(w: World)
    requires Reachable(w)
    ensures w.ring.Shaped() && w.ring.dirty <= Tail(w.ring, w.xmit)
    ensures Sum(FramesOf(w.past.jobs)) == w.books.reported + Outstanding(w, Frames) + PickedUp(w.poll, Frames)
  {
    InvReachable(w);
    AllInRing(w, Frames);
  }

  lemma AllInRing(w: World, m: Measure)
    requires RingInv(w)
    ensures Outstanding(w, m) == Owed(w.past.sent, w.past.kept, m) - Owed(w.past.sent[..w.ring.dirty], w.past.kept[..w.ring.dirty], m)
  {
    var n := Tail(w.ring, w.xmit) - w.ring.dirty;
    RecordsKept(w.ring, w.xmit, w.past);
    InRingIsOwed(w.ring, w.past.sent, w.past.kept, n, m);
    assert w.past.sent[..w.ring.dirty + n] == w.past.sent && w.past.kept[..w.ring.dirty + n] == w.past.kept;
  }

  /** The busy return is dead code for well-formed packets: whenever the stack
      may hand one over, the ring has room for the worst case. */
  lemma NeverBusy(w: World, skb: TxPacket.Skb)
    requires Reachable(w) && w.xmit.Idle? && !w.queue.stopped && skb.WellFormed()
    ensures TxPacket.Estimate(skb, w.books.mss, w.books.tag) <= w.ring.Avail()
  {
    InvReachable(w);
    TxPacket.EstimateBound(skb, w.books.mss, w.books.tag);
  }

  /** Between polls a stopped queue has work outstanding that the device has
      been told about, so a completion will come, unless a poll ended between
      the check and the stop. */
  lemma StoppedMeansOutstanding(w: World)
    requires Reachable(w) && w.queue.stopped && w.poll.Resting? && !w.missed
    ensures w.ring.Avail() <= MIN_FREE
    ensures w.ring.cur - w.ring.dirty >= RING - MIN_FREE > 0
    ensures w.queue.doorbell == w.ring.cur && w.ring.hw <= w.ring.cur
  {
    InvReachable(w);
  }
}
