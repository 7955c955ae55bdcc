/** The other end of the descriptor ring: how the device interprets the
    descriptors it consumes, one after the other, and why that is exactly what
    the driver was asked to send. */
module TxDevice {
  import opened Common
  import opened TxWire

  datatype Tcp = Tcp(mss: nat, payload: nat, hdrWords: nat)

  /** One packet as the device understands it. */
  datatype Frame = Frame(bufs: seq<Buf>, tcp: Option<Tcp>, tag: Option<nat>, csum: bool, length: nat, interrupt: bool)

  // The device remembers the last segment size and tag it was told, and the
  // packet it is in the middle of.
  datatype Device = Device(mss: nat, tag: nat, open: Option<Frame>)

  datatype Outcome = Outcome(dev: Device, frames: seq<Frame>)

  function Step(dev: Device, d: Desc): Outcome {
    if d.mark.ctxt then
      Outcome(dev.(mss := if d.latch.mssValid then d.latch.mss else dev.mss,
                   tag := if d.latch.tagValid then d.latch.tag else dev.tag), [])
    else
      var f :=
        if d.mark.fd then
          Frame([d.buf], if d.off.tse then Some(Tcp(dev.mss, d.off.size, d.off.tcpWords)) else None,
                if d.off.insertTag then Some(dev.tag) else None,
                d.off.tse || d.off.cic, if d.off.tse then 0 else d.off.size, false)
        else if dev.open.Some? then
          dev.open.value.(bufs := dev.open.value.bufs + [d.buf])
        else Frame([d.buf], None, None, false, 0, false);
      if d.mark.ld then Outcome(dev.(open := None), [f.(interrupt := d.mark.ic)])
      else Outcome(dev.(open := Some(f)), [])
  }

  function Run(dev: Device, ds: seq<Desc>): Outcome {
    if ds == [] then Outcome(dev, [])
    else
      var o := Run(dev, ds[..|ds| - 1]);
      var s := Step(o.dev, ds[|ds| - 1]);
      Outcome(s.dev, o.frames + s.frames)
  }

  lemma {:induction false} RunConcat(dev: Device, a: seq<Desc>, b: seq<Desc>)
    ensures Run(dev, a + b) == Outcome(Run(Run(dev, a).dev, b).dev, Run(dev, a).frames + Run(Run(dev, a).dev, b).frames)
  {
    if b == [] {
      assert a + b == a;
    } else {
      var c := b[..|b| - 1];
      RunConcat(dev, a, c);
      assert (a + b)[..|a + b| - 1] == a + c;
      var last := Step(Run(Run(dev, a).dev, c).dev, b[|b| - 1]);
      assert Run(dev, a).frames + Run(Run(dev, a).dev, c).frames + last.frames
          == Run(dev, a).frames + (Run(Run(dev, a).dev, c).frames + last.frames);
    }
  }

  // -------------------------------------------------- one packet, both ways

  /** What the packet was meant to be. */
  function Intent(p: Packet, interrupt: bool): Frame {
    Frame(p.bufs,
          if p.tso then Some(Tcp(p.mss, p.payloadLen, p.tcpHdrLen / 4)) else None,
          if p.vlan then Some(p.ctag) else None,
          p.csum, if p.tso then 0 else p.length, interrupt)
  }

  function CutBufs(bufs: seq<Buf>): seq<Buf> {
    seq(|bufs|, k requires 0 <= k < |bufs| => Buf(bufs[k].addr, bufs[k].len % B1L))
  }

  /** What the fields of the descriptors have room for. */
  function OnWire(p: Packet, interrupt: bool): Frame {
    Frame(CutBufs(p.bufs),
          if p.tso then Some(Tcp(p.mss % MSS, p.payloadLen % TCPPL, p.tcpHdrLen / 4 % TCPHDR)) else None,
          if p.vlan then Some(p.ctag) else None,
          p.csum, if p.tso then 0 else p.length % FL, interrupt)
  }

  predicate Fits(p: Packet) {
    && (forall k :: 0 <= k < |p.bufs| ==> p.bufs[k].len < B1L)
    && if p.tso then p.mss < MSS && p.payloadLen < TCPPL && p.tcpHdrLen / 4 < TCPHDR else p.length < FL
  }

  /** The fields are wide enough for the packet if and only if every length is
      below its field's range. */
  lemma WireIsIntent(p: Packet, interrupt: bool)
    ensures OnWire(p, interrupt) == Intent(p, interrupt) <==> Fits(p)
  {
    if Fits(p) {
      assert CutBufs(p.bufs) == p.bufs;
    }
    if OnWire(p, interrupt) == Intent(p, interrupt) {
      forall k | 0 <= k < |p.bufs| ensures p.bufs[k].len < B1L {
        assert CutBufs(p.bufs)[k] == p.bufs[k];
      }
    }
  }

  // The device's memory agrees with the driver's record of it.
  predicate InStep(dev: Device, curMss: nat, curTag: nat) {
    dev.open.None? && dev.mss == curMss % MSS && dev.tag == curTag
  }

  /** The decisions at the top of `mac_dev_xmit`. */
  predicate Decided(job: Job, curMss: nat, curTag: nat) {
    && job.mssContext == (job.pkt.tso && job.pkt.mss != curMss)
    && job.tagContext == (job.pkt.vlan && job.pkt.ctag != curTag)
  }

  function NextMss(job: Job, curMss: nat): nat { if job.mssContext then job.pkt.mss else curMss }

  function NextTag(job: Job, curTag: nat): nat { if job.tagContext then job.pkt.ctag else curTag }

  // The device after the context descriptor, if there is one.
  function Told(job: Job, dev: Device): Device {
    dev.(mss := if job.mssContext then job.pkt.mss % MSS else dev.mss,
         tag := if job.tagContext then job.pkt.ctag else dev.tag)
  }

  // The device after the packet's first `k` buffers.
  function Reading(job: Job, dev: Device, k: nat): Device
    requires k <= |job.pkt.bufs|
  {
    Told(job, dev).(open := if k == 0 then None else Some(OnWire(job.pkt, false).(bufs := CutBufs(job.pkt.bufs[..k]))))
  }

  lemma RunSnoc(dev: Device, ds: seq<Desc>, k: nat)
    requires k < |ds|
    ensures var o := Run(dev, ds[..k]);
      var s := Step(o.dev, ds[k]);
      Run(dev, ds[..k + 1]) == Outcome(s.dev, o.frames + s.frames)
  {
    assert ds[..k + 1][..k] == ds[..k];
  }

  lemma CutSnoc(bufs: seq<Buf>, k: nat)
    requires k < |bufs|
    ensures CutBufs(bufs[..k + 1]) == CutBufs(bufs[..k]) + [Buf(bufs[k].addr, bufs[k].len % B1L)]
  {
  }

  // One buffer descriptor, read in the middle of its packet.
  lemma ReadBuffer(job: Job, dev: Device, curMss: nat, curTag: nat, k: nat)
    requires job.Valid() && InStep(dev, curMss, curTag) && Decided(job, curMss, curTag)
    requires k < |job.pkt.bufs|
    ensures var s := Step(Reading(job, dev, k), Encoded(job, job.Ctx() + k));
      s == if k + 1 < |job.pkt.bufs| then Outcome(Reading(job, dev, k + 1), [])
           else Outcome(Told(job, dev), [OnWire(job.pkt, job.interrupt)])
  {
    CutSnoc(job.pkt.bufs, k);
    if k + 1 == |job.pkt.bufs| {
      assert job.pkt.bufs[..k + 1] == job.pkt.bufs;
    }
    if k == 0 {
      assert CutBufs(job.pkt.bufs[..1]) == [Encoded(job, job.Ctx()).buf];
    }
  }

  lemma {:induction false} ReadBuffers(job: Job, dev: Device, curMss: nat, curTag: nat, k: nat)
    requires job.Valid() && InStep(dev, curMss, curTag) && Decided(job, curMss, curTag)
    requires k < |job.pkt.bufs|
    ensures Run(dev, Encode(job)[..job.Ctx() + k]) == Outcome(Reading(job, dev, k), [])
  {
    if k == 0 {
      ReadContext(job, dev);
    } else {
      ReadBuffers(job, dev, curMss, curTag, k - 1);
      ReadBuffer(job, dev, curMss, curTag, k - 1);
      RunSnoc(dev, Encode(job), job.Ctx() + k - 1);
    }
  }

  lemma ReadContext(job: Job, dev: Device)
    requires job.Valid() && dev.open.None?
    ensures Run(dev, Encode(job)[..job.Ctx()]) == Outcome(Reading(job, dev, 0), [])
  {
    var ds := Encode(job);
    assert ds[..0] == [];
    if job.Ctx() == 1 {
      RunSnoc(dev, ds, 0);
      assert ds[0] == Encoded(job, 0);
    }
  }

  lemma LastStep(dev: Device, ds: seq<Desc>, mid: Device, end: Device, frame: Frame)
    requires ds != [] && Run(dev, ds[..|ds| - 1]) == Outcome(mid, []) && Step(mid, ds[|ds| - 1]) == Outcome(end, [frame])
    ensures Run(dev, ds) == Outcome(end, [frame])
  {
  }

  lemma StaysInStep(job: Job, dev: Device, curMss: nat, curTag: nat)
    requires InStep(dev, curMss, curTag)
    ensures InStep(Told(job, dev), NextMss(job, curMss), NextTag(job, curTag))
  {
  }

  /** Round trip: from a device in step with the driver, the descriptors of a
      packet decode to that packet alone, and leave the two in step again. */
  lemma DecodeEncode(job: Job, dev: Device, curMss: nat, curTag: nat)
    requires job.Valid() && InStep(dev, curMss, curTag) && Decided(job, curMss, curTag)
    ensures Run(dev, Encode(job)).frames == [OnWire(job.pkt, job.interrupt)]
    ensures InStep(Run(dev, Encode(job)).dev, NextMss(job, curMss), NextTag(job, curTag))
  {
    var ds := Encode(job);
    var k := |job.pkt.bufs| - 1;
    assert ds[|ds| - 1] == Encoded(job, job.Ctx() + k);
    StaysInStep(job, dev, curMss, curTag);
    hide Step, Run, Encode, Encoded, OnWire, CutBufs, Reading, Told, InStep, NextMss, NextTag, Decided;
    ReadBuffers(job, dev, curMss, curTag, k);
    ReadBuffer(job, dev, curMss, curTag, k);
    LastStep(dev, ds, Reading(job, dev, k), Told(job, dev), OnWire(job.pkt, job.interrupt));
  }

  // ------------------------------------------------------- whole histories

  function Stream(jobs: seq<Job>): seq<Desc>
    requires forall j :: 0 <= j < |jobs| ==> jobs[j].Valid()
  {
    if jobs == [] then [] else Stream(jobs[..|jobs| - 1]) + Encode(jobs[|jobs| - 1])
  }

  // ring->tx.cur_mss and cur_vlan_ctag after a history.
  function CurMss(jobs: seq<Job>): nat {
    if jobs == [] then 0 else NextMss(jobs[|jobs| - 1], CurMss(jobs[..|jobs| - 1]))
  }

  function CurTag(jobs: seq<Job>): nat {
    if jobs == [] then 0 else NextTag(jobs[|jobs| - 1], CurTag(jobs[..|jobs| - 1]))
  }

  // Every job was decided against the record left by the jobs before it.
  ghost predicate History(jobs: seq<Job>) {
    forall j :: 0 <= j < |jobs| ==> jobs[j].Valid() && Decided(jobs[j], CurMss(jobs[..j]), CurTag(jobs[..j]))
  }

  function WireFrames(jobs: seq<Job>): seq<Frame> {
    seq(|jobs|, j requires 0 <= j < |jobs| => OnWire(jobs[j].pkt, jobs[j].interrupt))
  }

  const RESET: Device := Device(0, 0, None)

  lemma HistoryPrefix(jobs: seq<Job>)
    requires History(jobs) && jobs != []
    ensures History(jobs[..|jobs| - 1])
  {
    var front := jobs[..|jobs| - 1];
    forall j | 0 <= j < |front| ensures front[j].Valid() && Decided(front[j], CurMss(front[..j]), CurTag(front[..j])) {
      assert front[..j] == jobs[..j];
    }
  }

  // A history taken apart at its last packet.
  lemma {:induction false} Latest(jobs: seq<Job>)
    requires History(jobs) && jobs != []
    ensures var front, job := jobs[..|jobs| - 1], jobs[|jobs| - 1];
      && History(front) && jobs == front + [job] && job.Valid() && Decided(job, CurMss(front), CurTag(front))
      && Stream(jobs) == Stream(front) + Encode(job)
      && CurMss(jobs) == NextMss(job, CurMss(front)) && CurTag(jobs) == NextTag(job, CurTag(front))
  {
    hide Encode, Decided, NextMss, NextTag;
    HistoryPrefix(jobs);
    assert jobs[..|jobs| - 1] + [jobs[|jobs| - 1]] == jobs;
  }

  lemma {:induction false} WireSnoc(jobs: seq<Job>, job: Job)
    ensures WireFrames(jobs + [job]) == WireFrames(jobs) + [OnWire(job.pkt, job.interrupt)]
  {
    hide OnWire;
  }

  lemma DecodeStreamStep(front: seq<Job>, job: Job)
    requires History(front) && job.Valid() && Decided(job, CurMss(front), CurTag(front))
    requires Run(RESET, Stream(front)).frames == WireFrames(front)
    requires InStep(Run(RESET, Stream(front)).dev, CurMss(front), CurTag(front))
    ensures Run(RESET, Stream(front) + Encode(job)).frames == WireFrames(front) + [OnWire(job.pkt, job.interrupt)]
    ensures InStep(Run(RESET, Stream(front) + Encode(job)).dev, NextMss(job, CurMss(front)), NextTag(job, CurTag(front)))
  {
    RunConcat(RESET, Stream(front), Encode(job));
    DecodeEncode(job, Run(RESET, Stream(front)).dev, CurMss(front), CurTag(front));
  }

  /** Leaving out a context descriptor whenever the device already knows the
      segment size and tag never changes what is sent: any history of packets
      decodes to exactly those packets, in order. */
  lemma {:induction false} DecodeStream(jobs: seq<Job>)
    requires History(jobs)
    ensures Run(RESET, Stream(jobs)).frames == WireFrames(jobs)
    ensures InStep(Run(RESET, Stream(jobs)).dev, CurMss(jobs), CurTag(jobs))
  {
    if jobs != [] {
      hide Run, Stream, History, CurMss, CurTag, WireFrames, Encode, OnWire, InStep, Decided, NextMss, NextTag;
      var front, job := jobs[..|jobs| - 1], jobs[|jobs| - 1];
      Latest(jobs);
      DecodeStream(front);
      DecodeStreamStep(front, job);
      WireSnoc(front, job);
    }
  }

  lemma {:induction false} RunPrefix(dev: Device, ds: seq<Desc>, k: nat)
    requires k <= |ds|
    ensures Run(dev, ds[..k]).frames <= Run(dev, ds).frames
  {
    RunConcat(dev, ds[..k], ds[k..]);
    assert ds == ds[..k] + ds[k..];
  }
}
