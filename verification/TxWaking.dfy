/** When a stopped transmit queue is woken, and the one way in which it never is:
    the check for space and the stop are two steps, and the reclaimer may come
    in between. */
module TxWaking {
  import opened Common
  import opened TxWire
  import opened TxLedger
  import opened TxProtocol
  import opened TxSafety

  // `n` reclaim steps in a row.
  function Slots(n: nat): seq<Action> {
    if n == 0 then [] else [PollSlot] + Slots(n - 1)
  }

  lemma SlotsFirst(n: nat)
    requires n > 0
    ensures Slots(n) == [PollSlot] + Slots(n - 1)
  {
  }

  // A poll with something completed in front of it.
  predicate Facing(w: World, n: nat) {
    && w.poll.Polling? && w.poll.processed + n <= MAX_PROC
    && w.ring.dirty + n <= w.poll.limit && w.ring.dirty + n <= w.ring.hw
  }

  lemma OneSlot(w: World, n: nat)
    requires RingInv(w) && Facing(w, n + 1)
    ensures Enabled(w, PollSlot) && RingInv(Next(w, PollSlot))
    ensures var v := Next(w, PollSlot);
      && v.ring == ReclaimOne(w.ring) && Facing(v, n) && v == w.(ring := v.ring, poll := v.poll, ledger := v.ledger)
      && v.poll.limit == w.poll.limit && v.poll.processed == w.poll.processed + 1
  {
    assert HandedAt(w.ring, w.past, w.ring.dirty);
    RingStep(w, PollSlot);
  }

  lemma {:induction false} SlotsRun(w: World, n: nat) returns (v: World)
    requires RingInv(w) && Facing(w, n)
    ensures w.ring.Shaped() && Reaches(w, Slots(n), v) && RingInv(v)
    ensures v.ring == ReclaimN(w.ring, n)
    ensures v.ring.dirty == w.ring.dirty + n && v.ring.cur == w.ring.cur && v.ring.hw == w.ring.hw
    ensures v.poll.Polling? && v.poll.limit == w.poll.limit && v.poll.processed == w.poll.processed + n
    ensures v == w.(ring := v.ring, poll := v.poll, ledger := v.ledger)
    decreases n
  {
    if n == 0 {
      v := w;
    } else {
      OneSlot(w, n - 1);
      hide RingInv, Next, Enabled, Facing, Reaches, Slots;
      v := SlotsRun(Next(w, PollSlot), n - 1);
      SlotsFirst(n);
      StepFirst(w, PollSlot, Slots(n - 1), v);
    }
  }

  // A poll with nothing more to reclaim, or no more to reclaim at once.
  lemma CanEnd(e: World)
    requires RingInv(e) && e.poll.Polling? && e.poll.limit <= e.ring.cur && e.ring.hw <= e.ring.cur
    requires e.poll.processed >= MAX_PROC || e.ring.dirty == e.ring.hw || e.ring.dirty == e.poll.limit
    ensures Enabled(e, PollEnd)
  {
    if e.ring.dirty == e.ring.hw < e.ring.cur {
      assert HandedAt(e.ring, e.past, e.ring.dirty);
    }
  }

  lemma Begins(w: World, n: nat)
    requires RingInv(w) && w.poll.Resting? && w.ring.hw <= w.ring.cur && n == Min(MAX_PROC, w.ring.hw - w.ring.dirty)
    ensures Enabled(w, PollBegin)
    ensures var b := Next(w, PollBegin);
      b == w.(poll := Polling(w.ring.cur, 0, 0, 0)) && RingInv(b) && Facing(b, n)
  {
    RingStep(w, PollBegin);
  }

  /** A poll left alone reclaims everything completed, up to its limit. It wakes
      a stopped queue exactly when it has reclaimed something and that leaves
      more than the minimum free. */
  lemma PollWakes(w: World) returns (v: World)
    requires Inv(w) && w.poll.Resting? && w.ring.hw <= w.ring.cur
    ensures w.ring.dirty <= w.ring.hw
    ensures var done := Min(MAX_PROC, w.ring.hw - w.ring.dirty);
      && Reaches(w, [PollBegin] + Slots(done) + [PollEnd], v) && Inv(v)
      && v.ring == ReclaimN(w.ring, done) && v.xmit == w.xmit && v.poll.Resting? && v.past == w.past && v.frames == w.frames
      && v.ring.dirty == w.ring.dirty + done && v.ring.cur == w.ring.cur && v.ring.hw == w.ring.hw
      && v.queue == w.queue.(stopped := w.queue.stopped && (done == 0 || v.ring.Avail() <= MIN_FREE))
      && v.missed == (w.missed || (done > 0 && w.xmit.Halting?))
  {
    hide Sound, ReclaimN, Slots, Recorded, Counted, Balanced, Itemised, Controlled, Reaches, Facing;
    Fields(w.ring, w.xmit, w.past);
    var done := Min(MAX_PROC, w.ring.hw - w.ring.dirty);
    Begins(w, done);
    var b := Next(w, PollBegin);
    var e := SlotsRun(b, done);
    CanEnd(e);
    v := Next(e, PollEnd);
    Single(w, PollBegin);
    Single(e, PollEnd);
    ReachesThen(w, [PollBegin], b, Slots(done), e);
    ReachesThen(w, [PollBegin] + Slots(done), e, [PollEnd], v);
    InvRun(w, [PollBegin] + Slots(done) + [PollEnd], v);
  }

  /** Once the device has drained a stopped ring, one poll wakes the queue if
      and only if it finds something to reclaim. */
  lemma DrainedQueueWakes(w: World) returns (v: World)
    requires Inv(w) && w.queue.stopped && w.poll.Resting? && w.ring.hw == w.ring.cur
    ensures w.ring.dirty <= w.ring.hw
    ensures Reaches(w, [PollBegin] + Slots(Min(MAX_PROC, w.ring.hw - w.ring.dirty)) + [PollEnd], v)
    ensures !v.queue.stopped <==> w.ring.dirty < w.ring.cur
  {
    Order(w);
    hide Inv, Reaches, ReclaimN;
    v := PollWakes(w);
  }

  lemma Order(w: World)
    requires Inv(w)
    ensures w.ring.Shaped()
    ensures w.ring.dirty <= w.ring.hw && w.ring.dirty <= w.ring.cur <= w.ring.dirty + RING
    ensures w.queue.stopped ==> w.xmit.Idle?
    ensures !w.xmit.Published? ==> w.ring.hw <= w.ring.cur
    ensures w.poll.Polling? ==> w.ring.dirty <= w.poll.limit <= w.ring.cur
  {
  }

  // ------------------------------------------------------- the lost wake-up

  // The device completes `n` descriptors.
  lemma {:induction false} Drain(w: World, n: nat) returns (actions: seq<Action>, v: World)
    requires Inv(w) && w.ring.hw + n <= w.ring.cur
    ensures Reaches(w, actions, v) && Inv(v) && v.ring.hw == w.ring.hw + n && v.ring.cur == w.ring.cur && v.ring.dirty == w.ring.dirty
    ensures v == w.(ring := v.ring, past := v.past) && v.past == w.past.(log := v.past.log)
    decreases n
  {
    hide RingInv, Recorded, Counted, Balanced, Itemised, Controlled, Next, Enabled, Reaches;
    if n == 0 {
      actions, v := [], w;
      Stays(w);
    } else {
      Completes(w);
      Single(w, Consume);
      InvStep(w, Consume);
      actions, v := Drain(Next(w, Consume), n - 1);
      ReachesThen(w, [Consume], Next(w, Consume), actions, v);
      actions := [Consume] + actions;
    }
  }

  lemma Stays(w: World)
    ensures Reaches(w, [], w)
  {
  }

  lemma Completes(w: World)
    requires RingInv(w) && w.ring.hw < w.ring.cur
    ensures Enabled(w, Consume)
    ensures var v := Next(w, Consume);
      && v == w.(ring := v.ring, past := v.past) && v.past == w.past.(log := v.past.log)
      && v.ring == w.ring.(desc := v.ring.desc, hw := w.ring.hw + 1)
  {
    assert HandedAt(w.ring, w.past, w.ring.hw);
  }

  // Something is left to reclaim, or a poll that has reclaimed something is
  // still to look at the queue.
  predicate CanWake(w: World) { w.ring.dirty < w.ring.cur || !Unwatched(w.poll) }

  // Otherwise nothing that can still happen changes that.
  lemma StuckStep(w: World, a: Action)
    requires Inv(w) && w.queue.stopped && !CanWake(w) && Enabled(w, a)
    ensures Next(w, a).queue.stopped && !CanWake(Next(w, a))
  {
    hide Recorded, Counted, Balanced, Itemised, Partial, Handed, Clear, Place;
    if a.Consume? {
      BlockedAtTail(w.ring, w.xmit, w.past);
    }
  }

  lemma {:induction false} StuckRun(w: World, actions: seq<Action>, v: World)
    requires Inv(w) && w.queue.stopped && !CanWake(w) && Reaches(w, actions, v)
    ensures v.queue.stopped
    decreases |actions|
  {
    hide Inv, Enabled, Next;
    if actions != [] {
      StuckStep(w, actions[0]);
      InvStep(w, actions[0]);
      StuckRun(Next(w, actions[0]), actions[1..], v);
    }
  }

  // The poll under way, if there is one, comes to its end.
  lemma EndPoll(w: World) returns (actions: seq<Action>, v: World)
    requires Inv(w) && w.queue.stopped && w.ring.hw == w.ring.cur && CanWake(w)
    ensures Reaches(w, actions, v) && Inv(v) && v.poll.Resting? && v.ring.hw == v.ring.cur
    ensures v.queue.stopped ==> v.ring.dirty < v.ring.cur
  {
    hide RingInv, Recorded, Counted, Balanced, Itemised, ReclaimN, Reaches, Slots;
    Order(w);
    if w.poll.Resting? {
      actions, v := [], w;
      Stays(w);
    } else {
      var n := if w.poll.processed >= MAX_PROC then 0 else Min(MAX_PROC - w.poll.processed, w.poll.limit - w.ring.dirty);
      var e := Ending(w, n);
      v := Next(e, PollEnd);
      Single(e, PollEnd);
      ReachesThen(w, Slots(n), e, [PollEnd], v);
      actions := Slots(n) + [PollEnd];
      InvRun(w, actions, v);
    }
  }

  lemma Ending(w: World, n: nat) returns (e: World)
    requires RingInv(w) && w.poll.Polling? && w.ring.hw == w.ring.cur && w.ring.dirty <= w.poll.limit <= w.ring.cur
    requires n == if w.poll.processed >= MAX_PROC then 0 else Min(MAX_PROC - w.poll.processed, w.poll.limit - w.ring.dirty)
    ensures Reaches(w, Slots(n), e) && Enabled(e, PollEnd)
    ensures e.ring.dirty == w.ring.dirty + n && e.ring.cur == e.ring.hw == w.ring.cur && e.queue == w.queue
    ensures e.poll.Polling? && e.poll.processed == w.poll.processed + n
  {
    hide Sound, ReclaimN, Reaches, Slots;
    Fields(w.ring, w.xmit, w.past);
    if n == 0 {
      e := w;
      NoSlots(w);
    } else {
      e := SlotsRun(w, n);
    }
    CanEnd(e);
  }

  lemma NoSlots(w: World)
    ensures Reaches(w, Slots(0), w)
  {
  }

  lemma Wakes(w: World) returns (actions: seq<Action>, v: World)
    requires Inv(w) && w.queue.stopped && CanWake(w)
    ensures Reaches(w, actions, v) && !v.queue.stopped
  {
    hide Inv, Reaches;
    Order(w);
    var a, u := Drain(w, w.ring.cur - w.ring.hw);
    var b;
    b, v := EndPoll(u);
    ReachesThen(w, a, u, b, v);
    actions := a + b;
    if v.queue.stopped {
      Order(v);
      var t := DrainedQueueWakes(v);
      var c := [PollBegin] + Slots(Min(MAX_PROC, v.ring.hw - v.ring.dirty)) + [PollEnd];
      ReachesThen(w, actions, v, c, t);
      actions, v := actions + c, t;
    }
  }

  /** In every reachable state, a stopped queue can still be woken if and only
      if something is left to reclaim or a poll that has reclaimed something is
      still to look at it; and where it cannot be, a poll ended between the
      check and the stop. */
  lemma WakesIff(w: World)
    requires Reachable(w) && w.queue.stopped
    ensures (exists actions, v :: Reaches(w, actions, v) && !v.queue.stopped) <==> CanWake(w)
    ensures !CanWake(w) ==> w.missed
  {
    InvReachable(w);
    hide RingInv, Recorded, Counted, Balanced, Itemised, Reaches, Reachable;
    if CanWake(w) {
      var actions, v := Wakes(w);
      assert Reaches(w, actions, v) && !v.queue.stopped;
    } else {
      forall actions, v | Reaches(w, actions, v) ensures v.queue.stopped {
        StuckRun(w, actions, v);
      }
    }
  }

  /** So the stop that follows a check strands the queue if and only if by then
      everything has been reclaimed and no poll is still to look. */
  lemma StopStrands(w: World, hold: bool)
    requires Reachable(w) && w.xmit.Halting?
    ensures Enabled(w, Advance(hold)) && Next(w, Advance(hold)).queue.stopped
    ensures (forall actions, v :: Reaches(Next(w, Advance(hold)), actions, v) ==> v.queue.stopped) <==>
            w.ring.dirty == w.ring.cur && Unwatched(w.poll)
  {
    InvReachable(w);
    var u := Next(w, Advance(hold));
    ReachableNext(w, Advance(hold));
    Order(w);
    WakesIff(u);
  }

  lemma ReachableNext(w: World, a: Action)
    requires Reachable(w) && Enabled(w, a)
    ensures Reachable(Next(w, a))
  {
    hide Enabled, Next, Reaches;
    InvReachable(w);
    InvStep(w, a);
    var actions :| Reaches(Start(w.frames), actions, w);
    Single(w, a);
    ReachesThen(Start(w.frames), actions, w, [a], Next(w, a));
  }
}
