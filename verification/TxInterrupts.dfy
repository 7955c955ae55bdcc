/** Why a stopped transmit queue is woken: enough frames are outstanding that
    one of their descriptors asks for a completion interrupt. */
module TxInterrupts {
  import opened Common
  import opened TxPacket
  import opened TxLedger
  import opened TxProtocol
  import opened TxSafety
  import opened TxWire
  import C = TxCoalesce
  import D = TxDevice

  // Descriptors after the last one that asks for an interrupt.
  function Trail(ds: seq<Desc>): (n: nat)
    ensures n <= |ds| && (n < |ds| ==> ds[|ds| - 1 - n].mark.ic)
  {
    if ds == [] || ds[|ds| - 1].mark.ic then 0 else 1 + Trail(ds[..|ds| - 1])
  }

  lemma {:induction false} TrailUnmarked(a: seq<Desc>, b: seq<Desc>)
    requires forall i :: 0 <= i < |b| ==> !b[i].mark.ic
    ensures Trail(a + b) == Trail(a) + |b|
  {
    if b == [] {
      assert a + b == a;
    } else {
      assert (a + b)[..|a + b| - 1] == a + b[..|b| - 1];
      TrailUnmarked(a, b[..|b| - 1]);
    }
  }

  lemma TrailJob(a: seq<Desc>, job: Job)
    requires job.Valid()
    ensures Trail(a + Encode(job)) == if job.interrupt then 0 else Trail(a) + job.Count()
  {
    var ds := Encode(job);
    assert ds[|ds| - 1] == Encoded(job, job.Count() - 1);
    if !job.interrupt {
      forall i | 0 <= i < |ds| ensures !ds[i].mark.ic {
        assert ds[i] == Encoded(job, i);
      }
      TrailUnmarked(a, ds);
    }
  }

  lemma PacedPrefix(jobs: seq<Job>, frames: nat)
    requires Paced(jobs, frames) && jobs != []
    ensures Paced(jobs[..|jobs| - 1], frames)
  {
    var front := jobs[..|jobs| - 1];
    forall j | 0 <= j < |front| ensures Metered(front[j], LineOf(front[..j], frames).count, frames) {
      assert front[..j] == jobs[..j];
    }
  }

  lemma WorstCase()
    ensures MAX_DESC_NR == 24
  {
  }

  // One packet more waiting is at least one frame more.
  lemma TrailStep(trail: nat, l: C.Line, job: Job, frames: nat)
    requires trail <= 24 * l.waiting && Metered(job, l.count, frames)
    ensures (if job.interrupt then 0 else trail + job.Count()) <= 24 * C.Queue(l, job.pkt.txPackets, frames).waiting
  {
    WorstCase();
    hide C.Interrupts, C.Counted;
  }

  /** Every frame waiting for an interrupt accounts for at most 24
      descriptors after the last marked one. */
  lemma {:induction false} TrailBound(jobs: seq<Job>, frames: nat)
    requires D.History(jobs) && Paced(jobs, frames)
    ensures Trail(D.Stream(jobs)) <= 24 * LineOf(jobs, frames).waiting
  {
    if jobs != [] {
      hide Trail, Metered, LineOf, Encode, C.Queue, D.Decided, D.CurMss, D.CurTag, D.Stream, D.History;
      var front, job := jobs[..|jobs| - 1], jobs[|jobs| - 1];
      D.Latest(jobs);
      PacedPrefix(jobs, frames);
      TrailBound(front, frames);
      LineSnoc(front, job, frames);
      TrailJob(D.Stream(front), job);
      TrailStep(Trail(D.Stream(front)), LineOf(front, frames), job, frames);
    }
  }

  lemma FewFrames(jobs: seq<Job>, frames: nat)
    requires Paced(jobs, frames) && frames > 0
    ensures LineOf(jobs, frames).waiting < frames
  {
    var packets := FramesOf(jobs);
    forall k | 0 <= k < |packets| ensures packets[k] < WORD32 {
      assert Metered(jobs[k], LineOf(jobs[..k], frames).count, frames);
    }
    C.FewWaiting(packets, frames);
  }

  // Some outstanding descriptor asks for an interrupt.
  ghost predicate Marked(w: World) {
    w.ring.Shaped() && exists i: nat :: w.ring.dirty <= i < w.ring.cur && w.ring.D(i).mark.ic
  }

  // Between polls, stopped, no poll having ended between the check and the stop.
  predicate Waiting(w: World) { w.queue.stopped && w.poll.Resting? && !w.missed }

  /** A stopped queue has a descriptor outstanding that asks for an interrupt,
      as long as the setting is small enough for the descriptors of fewer than
      `frames` packets not to fill what a stopped ring holds, 24 of them each:
      up to 150 frames, where the default is 25. */
  lemma InterruptOutstanding(w: World)
    requires Reachable(w) && Waiting(w)
    requires 0 < w.frames <= 150
    ensures Marked(w)
  {
    hide Reachable, RingInv, Recorded, Counted, Balanced, Itemised, Controlled, Trail;
    StoppedMeansOutstanding(w);
    InvReachable(w);
    TrailShort(w);
    assert w.xmit.Idle? && |w.past.sent| == w.ring.cur by {
      AllSent(w);
    }
    var i := |w.past.sent| - 1 - Trail(w.past.sent);
    Outstanding(w, i);
  }

  lemma AllSent(w: World)
    requires Inv(w) && w.queue.stopped
    ensures w.xmit.Idle? && |w.past.sent| == w.ring.cur
  {
  }

  lemma TrailShort(w: World)
    requires Recorded(w) && Counted(w)
    requires 0 < w.frames <= 150
    ensures Trail(w.past.sent) < RING - MIN_FREE
  {
    hide Trail, LineOf, Paced, D.History, D.Stream;
    TrailBound(w.past.jobs, w.frames);
    FewFrames(w.past.jobs, w.frames);
  }

  // An outstanding descriptor still says whether it asks for an interrupt.
  lemma Outstanding(w: World, i: nat)
    requires RingInv(w) && w.xmit.Idle? && w.ring.dirty <= i < w.ring.cur
    ensures w.ring.Shaped() && |w.past.sent| == w.ring.cur && w.ring.D(i).mark == w.past.sent[i].mark
  {
    assert HandedAt(w.ring, w.past, i);
  }

  lemma {:induction false} NoneMarked(jobs: seq<Job>)
    requires D.History(jobs) && Paced(jobs, 0)
    ensures forall i :: 0 <= i < |D.Stream(jobs)| ==> !D.Stream(jobs)[i].mark.ic
  {
    if jobs != [] {
      var front, job := jobs[..|jobs| - 1], jobs[|jobs| - 1];
      D.HistoryPrefix(jobs);
      PacedPrefix(jobs, 0);
      NoneMarked(front);
      assert Metered(job, LineOf(front, 0).count, 0);
      forall j | 0 <= j < job.Count() ensures !Encode(job)[j].mark.ic {
        assert Encode(job)[j] == Encoded(job, j);
      }
    }
  }

  /** With a setting of zero no descriptor ever asks for one: only the transmit
      timer can wake the queue. */
  lemma NeverInterrupts(w: World, i: nat)
    requires Reachable(w) && w.frames == 0 && w.xmit.Idle? && w.ring.dirty <= i < w.ring.cur
    ensures w.ring.Shaped() && !w.ring.D(i).mark.ic
  {
    InvReachable(w);
    NoneMarked(w.past.jobs);
    Outstanding(w, i);
  }
}
