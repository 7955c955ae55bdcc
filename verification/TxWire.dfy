/** The descriptor words `mac_dev_xmit` writes for one packet, in the order it
    writes them, and what a device that reads those words back understands. */
module TxWire {
  import opened Common

  datatype Buf = Buf(addr: nat, len: nat)

  /** What `pkt_info` and the mapped slots hold when `mac_dev_xmit` starts. */
  datatype Packet = Packet(
    tso: bool,
    csum: bool,
    vlan: bool,
    mss: nat,
    ctag: nat,
    tcpHdrLen: nat,
    payloadLen: nat,
    length: nat,
    txPackets: nat,
    txBytes: nat,
    bufs: seq<Buf>)

  // A packet together with the decisions taken before the first write.
  datatype Job = Job(pkt: Packet, mssContext: bool, tagContext: bool, interrupt: bool)
  {
    function Ctx(): nat { if mssContext || tagContext then 1 else 0 }

    function Count(): nat { Ctx() + |pkt.bufs| }

    predicate Valid() {
      && pkt.bufs != []
      && (mssContext ==> pkt.tso)
      && (tagContext ==> pkt.vlan)
      && (pkt.tso ==> pkt.csum)
    }
  }

  // ------------------------------------------------------------ descriptors

  /** A hardware descriptor, one field per bit range the driver touches. */
  datatype Mark = Mark(ctxt: bool, fd: bool, ld: bool, ic: bool)
  datatype Offload = Offload(insertTag: bool, tse: bool, cic: bool, size: nat, tcpWords: nat)
  datatype Latch = Latch(mss: nat, mssValid: bool, tag: nat, tagValid: bool)
  datatype Desc = Desc(own: bool, buf: Buf, mark: Mark, off: Offload, latch: Latch)

  const NO_MARK: Mark := Mark(false, false, false, false)
  const NO_OFFLOAD: Offload := Offload(false, false, false, 0, 0)
  const NO_LATCH: Latch := Latch(0, false, 0, false)

  // mac_tx_desc_reset
  const ZERO: Desc := Desc(false, Buf(0, 0), NO_MARK, NO_OFFLOAD, NO_LATCH)

  // Field widths, in values.
  const B1L: nat := 0x4000
  const MSS: nat := 0x8000
  const FL: nat := 0x8000
  const TCPPL: nat := 0x4_0000
  const TCPHDR: nat := 0x10

  datatype Field =
    | PutAddr(a: nat)
    | PutLen(l: nat)
    | PutMss(m: nat)
    | PutMssValid
    | PutTag(t: nat)
    | PutTagValid
    | PutCtxt(on: bool)
    | PutInsertTag
    | PutFirst
    | PutOwn
    | PutTse
    | PutPayload(n: nat)
    | PutTcpHdr(w: nat)
    | PutCic
    | PutFrameLen(n: nat)
    | PutLast
    | PutInterrupt

  /** One read-modify-write; a value wider than its field is cut to it. */
  function Put(d: Desc, f: Field): Desc {
    match f
    case PutAddr(a) => d.(buf := d.buf.(addr := a))
    case PutLen(l) => d.(buf := d.buf.(len := l % B1L))
    case PutMss(m) => d.(latch := d.latch.(mss := m % MSS))
    case PutMssValid => d.(latch := d.latch.(mssValid := true))
    case PutTag(t) => d.(latch := d.latch.(tag := t))
    case PutTagValid => d.(latch := d.latch.(tagValid := true))
    case PutCtxt(on) => d.(mark := d.mark.(ctxt := on))
    case PutInsertTag => d.(off := d.off.(insertTag := true))
    case PutFirst => d.(mark := d.mark.(fd := true))
    case PutOwn => d.(own := true)
    case PutTse => d.(off := d.off.(tse := true))
    case PutPayload(n) => d.(off := d.off.(size := n % TCPPL))
    case PutTcpHdr(w) => d.(off := d.off.(tcpWords := w % TCPHDR))
    case PutCic => d.(off := d.off.(cic := true))
    case PutFrameLen(n) => d.(off := d.off.(size := n % FL))
    case PutLast => d.(mark := d.mark.(ld := true))
    case PutInterrupt => d.(mark := d.mark.(ic := true))
  }

  // ------------------------------------------------- the writes, in order

  datatype Write = Write(j: nat, f: Field)

  function On(j: nat, fs: seq<Field>): seq<Write> {
    seq(|fs|, k requires 0 <= k < |fs| => Write(j, fs[k]))
  }

  function ContextFields(job: Job): seq<Field> {
    (if job.mssContext then [PutMss(job.pkt.mss), PutCtxt(true), PutMssValid] else [])
    + (if job.tagContext then [PutCtxt(true), PutTag(job.pkt.ctag), PutTagValid] else [])
  }

  function OffloadFields(p: Packet): seq<Field> {
    if p.tso then [PutTse, PutPayload(p.payloadLen), PutTcpHdr(p.tcpHdrLen / 4)]
    else (if p.csum then [PutCic] else []) + [PutFrameLen(p.length)]
  }

  function FirstFields(job: Job): seq<Field>
    requires job.Valid()
  {
    [PutAddr(job.pkt.bufs[0].addr), PutLen(job.pkt.bufs[0].len)]
    + (if job.pkt.vlan then [PutInsertTag] else [])
    + [PutFirst, PutCtxt(false)]
    + (if job.Ctx() == 1 then [PutOwn] else [])
    + OffloadFields(job.pkt)
  }

  function RestFields(p: Packet, k: nat): seq<Field>
    requires k < |p.bufs|
  {
    [PutAddr(p.bufs[k].addr), PutLen(p.bufs[k].len), PutOwn, PutCtxt(false)] + (if p.csum then [PutCic] else [])
  }

  // The loop over the second and later buffers, up to buffer `k`.
  function RestWrites(job: Job, k: nat): seq<Write>
    requires job.Valid() && 1 <= k <= |job.pkt.bufs|
  {
    if k == 1 then [] else RestWrites(job, k - 1) + On(job.Ctx() + k - 1, RestFields(job.pkt, k - 1))
  }

  function ClosingFields(job: Job): seq<Field> {
    [PutLast] + (if job.interrupt then [PutInterrupt] else [])
  }

  function HeadWrites(job: Job): seq<Write>
    requires job.Valid()
  {
    (if job.Ctx() == 1 then On(0, ContextFields(job)) else []) + On(job.Ctx(), FirstFields(job))
  }

  function Body(job: Job): seq<Write>
    requires job.Valid()
  {
    HeadWrites(job) + RestWrites(job, |job.pkt.bufs|)
    + On(job.Count() - 1, ClosingFields(job))
  }

  /** Every write, the OWN bit of the packet's first descriptor last. */
  function Script(job: Job): seq<Write>
    requires job.Valid()
  {
    Body(job) + [Write(0, PutOwn)]
  }

  predicate InRange(ws: seq<Write>, n: nat) {
    forall k :: 0 <= k < |ws| ==> ws[k].j < n
  }

  function Replay(ds: seq<Desc>, ws: seq<Write>): (r: seq<Desc>)
    requires InRange(ws, |ds|)
    ensures |r| == |ds|
  {
    if ws == [] then ds
    else
      var w := ws[|ws| - 1];
      var r := Replay(ds, ws[..|ws| - 1]);
      r[w.j := Put(r[w.j], w.f)]
  }

  // --------------------------------------------- what the writes amount to

  function ContextDesc(job: Job): Desc {
    Desc(false, Buf(0, 0), NO_MARK.(ctxt := true), NO_OFFLOAD,
         Latch(if job.mssContext then job.pkt.mss % MSS else 0, job.mssContext,
               if job.tagContext then job.pkt.ctag else 0, job.tagContext))
  }

  // The offload fields of the packet's first buffer descriptor.
  function Offloads(p: Packet): Offload {
    if p.tso then Offload(p.vlan, true, false, p.payloadLen % TCPPL, p.tcpHdrLen / 4 % TCPHDR)
    else Offload(p.vlan, false, p.csum, p.length % FL, 0)
  }

  function BufDesc(job: Job, k: nat): Desc
    requires job.Valid() && k < |job.pkt.bufs|
  {
    var p := job.pkt;
    Desc(false, Buf(p.bufs[k].addr, p.bufs[k].len % B1L), NO_MARK.(fd := k == 0),
         if k == 0 then Offloads(p) else NO_OFFLOAD.(cic := p.csum), NO_LATCH)
  }

  /** The packet's descriptors as the device must find them. */
  function Encoded(job: Job, j: nat): Desc
    requires job.Valid() && j < job.Count()
  {
    var d := if j < job.Ctx() then ContextDesc(job) else BufDesc(job, j - job.Ctx());
    d.(own := true, mark := d.mark.(ld := j == job.Count() - 1, ic := job.interrupt && j == job.Count() - 1))
  }

  function Encode(job: Job): (ds: seq<Desc>)
    requires job.Valid()
    ensures |ds| == job.Count()
  {
    seq(job.Count(), j requires 0 <= j < job.Count() => Encoded(job, j))
  }

  function Blank(n: nat): (ds: seq<Desc>)
    ensures |ds| == n
  {
    seq(n, j => ZERO)
  }

  function PutAll(d: Desc, fs: seq<Field>): Desc {
    if fs == [] then d else Put(PutAll(d, fs[..|fs| - 1]), fs[|fs| - 1])
  }

  lemma {:induction false} PutAllConcat(d: Desc, a: seq<Field>, b: seq<Field>)
    ensures PutAll(d, a + b) == PutAll(PutAll(d, a), b)
  {
    if b == [] {
      assert a + b == a;
    } else {
      PutAllConcat(d, a, b[..|b| - 1]);
      assert (a + b)[..|a + b| - 1] == a + b[..|b| - 1];
    }
  }

  lemma PutOne(d: Desc, x: Field)
    ensures PutAll(d, [x]) == Put(d, x)
  {
    assert [x][..0] == [];
  }

  lemma PutOptional(d: Desc, on: bool, x: Field)
    ensures PutAll(d, if on then [x] else []) == if on then Put(d, x) else d
  {
    PutOne(d, x);
  }

  lemma PutChain(d: Desc, a: seq<Field>, b: seq<Field>, mid: Desc, end: Desc)
    requires PutAll(d, a) == mid && PutAll(mid, b) == end
    ensures PutAll(d, a + b) == end
  {
    PutAllConcat(d, a, b);
  }

  lemma PutTwo(d: Desc, x: Field, y: Field)
    ensures PutAll(d, [x, y]) == Put(Put(d, x), y)
  {
    assert [x, y][..1] == [x];
    PutOne(d, x);
  }

  lemma PutThree(d: Desc, x: Field, y: Field, z: Field)
    ensures PutAll(d, [x, y, z]) == Put(Put(Put(d, x), y), z)
  {
    assert [x, y, z][..2] == [x, y];
    PutTwo(d, x, y);
  }

  lemma {:induction false} ReplayConcat(ds: seq<Desc>, a: seq<Write>, b: seq<Write>)
    requires InRange(a, |ds|) && InRange(b, |ds|)
    ensures InRange(a + b, |ds|) && Replay(ds, a + b) == Replay(Replay(ds, a), b)
  {
    if b == [] {
      assert a + b == a;
    } else {
      ReplayConcat(ds, a, b[..|b| - 1]);
      assert (a + b)[..|a + b| - 1] == a + b[..|b| - 1];
    }
  }

  lemma ReplayChain(ds: seq<Desc>, a: seq<Write>, b: seq<Write>, mid: seq<Desc>, end: seq<Desc>)
    requires InRange(a, |ds|) && InRange(b, |ds|)
    requires |mid| == |ds| && Replay(ds, a) == mid && Replay(mid, b) == end
    ensures InRange(a + b, |ds|) && Replay(ds, a + b) == end
  {
    ReplayConcat(ds, a, b);
  }

  lemma ReplaySnoc(ds: seq<Desc>, ws: seq<Write>, k: nat)
    requires k < |ws| && InRange(ws[..k], |ds|) && InRange(ws[..k + 1], |ds|)
    ensures ws[k].j < |ds|
    ensures var before := Replay(ds, ws[..k]);
      Replay(ds, ws[..k + 1]) == before[ws[k].j := Put(before[ws[k].j], ws[k].f)]
  {
    assert ws[..k + 1][k] == ws[k];
    assert ws[..k + 1][..k] == ws[..k];
  }

  lemma {:induction false} ReplayOn(ds: seq<Desc>, j: nat, fs: seq<Field>)
    requires j < |ds|
    ensures Replay(ds, On(j, fs)) == ds[j := PutAll(ds[j], fs)]
  {
    if fs != [] {
      ReplayOn(ds, j, fs[..|fs| - 1]);
      assert On(j, fs)[..|fs| - 1] == On(j, fs[..|fs| - 1]);
    }
  }

  lemma ContextValue(job: Job)
    requires job.Valid() && job.Ctx() == 1
    ensures PutAll(ZERO, ContextFields(job)) == ContextDesc(job)
  {
    var a := if job.mssContext then [PutMss(job.pkt.mss), PutCtxt(true), PutMssValid] else [];
    var b := if job.tagContext then [PutCtxt(true), PutTag(job.pkt.ctag), PutTagValid] else [];
    PutAllConcat(ZERO, a, b);
    PutThree(ZERO, PutMss(job.pkt.mss), PutCtxt(true), PutMssValid);
    PutThree(PutAll(ZERO, a), PutCtxt(true), PutTag(job.pkt.ctag), PutTagValid);
  }

  lemma OffloadValue(p: Packet, d: Desc)
    requires p.tso ==> p.csum
    ensures PutAll(d, OffloadFields(p)) ==
            d.(off := if p.tso then d.off.(tse := true, size := p.payloadLen % TCPPL, tcpWords := p.tcpHdrLen / 4 % TCPHDR)
                      else d.off.(cic := p.csum || d.off.cic, size := p.length % FL))
  {
    if p.tso {
      PutThree(d, PutTse, PutPayload(p.payloadLen), PutTcpHdr(p.tcpHdrLen / 4));
    } else if p.csum {
      assert OffloadFields(p) == [PutCic, PutFrameLen(p.length)];
      PutTwo(d, PutCic, PutFrameLen(p.length));
    } else {
      assert OffloadFields(p) == [PutFrameLen(p.length)];
      PutOne(d, PutFrameLen(p.length));
    }
  }

  lemma FirstValue(job: Job)
    requires job.Valid()
    ensures PutAll(ZERO, FirstFields(job)) == BufDesc(job, 0).(own := job.Ctx() == 1)
  {
    var p := job.pkt;
    var a := [PutAddr(p.bufs[0].addr), PutLen(p.bufs[0].len)];
    var b := if p.vlan then [PutInsertTag] else [];
    var c := [PutFirst, PutCtxt(false)];
    var e := if job.Ctx() == 1 then [PutOwn] else [];
    var d1 := ZERO.(buf := Buf(p.bufs[0].addr, p.bufs[0].len % B1L));
    PutTwo(ZERO, a[0], a[1]);
    PutOptional(d1, p.vlan, PutInsertTag);
    var d2 := d1.(off := NO_OFFLOAD.(insertTag := p.vlan));
    PutTwo(d2, PutFirst, PutCtxt(false));
    var d3 := d2.(mark := NO_MARK.(fd := true));
    PutOptional(d3, job.Ctx() == 1, PutOwn);
    var d4 := d3.(own := job.Ctx() == 1);
    OffloadValue(p, d4);
    PutChain(ZERO, a, b, d1, d2);
    PutChain(ZERO, a + b, c, d2, d3);
    PutChain(ZERO, a + b + c, e, d3, d4);
    PutAllConcat(ZERO, a + b + c + e, OffloadFields(p));
  }

  lemma RestValue(job: Job, k: nat)
    requires job.Valid() && 1 <= k < |job.pkt.bufs|
    ensures PutAll(ZERO, RestFields(job.pkt, k)) == BufDesc(job, k).(own := true)
  {
    var p := job.pkt;
    var a := [PutAddr(p.bufs[k].addr), PutLen(p.bufs[k].len)];
    var b := [PutOwn, PutCtxt(false)];
    var c := if p.csum then [PutCic] else [];
    PutTwo(ZERO, a[0], a[1]);
    PutAllConcat(ZERO, a, b);
    PutTwo(PutAll(ZERO, a), PutOwn, PutCtxt(false));
    PutAllConcat(ZERO, a + b, c);
    PutOne(PutAll(ZERO, a + b), PutCic);
    assert RestFields(p, k) == a + b + c;
  }

  // The block while buffers up to `k` are written and nothing is published.
  function StagedAt(job: Job, k: nat, j: nat): Desc
    requires job.Valid() && k <= |job.pkt.bufs| && j < job.Count()
  {
    if j < job.Ctx() then ContextDesc(job)
    else if j < job.Ctx() + k then BufDesc(job, j - job.Ctx()).(own := j != 0)
    else ZERO
  }

  function Staged(job: Job, k: nat): seq<Desc>
    requires job.Valid() && k <= |job.pkt.bufs|
  {
    seq(job.Count(), j requires 0 <= j < job.Count() => StagedAt(job, k, j))
  }

  lemma StagedStep(job: Job, k: nat)
    requires job.Valid() && 1 <= k < |job.pkt.bufs|
    ensures Staged(job, k)[job.Ctx() + k] == ZERO
    ensures Staged(job, k)[job.Ctx() + k := BufDesc(job, k).(own := true)] == Staged(job, k + 1)
  {
    var a := Staged(job, k)[job.Ctx() + k := BufDesc(job, k).(own := true)];
    var b := Staged(job, k + 1);
    forall j | 0 <= j < |b| ensures a[j] == b[j] {
      assert b[j] == StagedAt(job, k + 1, j);
      assert j != job.Ctx() + k ==> a[j] == StagedAt(job, k, j);
    }
  }

  lemma RestStep(job: Job, k: nat)
    requires job.Valid() && 1 <= k < |job.pkt.bufs|
    ensures InRange(On(job.Ctx() + k, RestFields(job.pkt, k)), job.Count())
    ensures Replay(Staged(job, k), On(job.Ctx() + k, RestFields(job.pkt, k))) == Staged(job, k + 1)
  {
    StagedStep(job, k);
    RestValue(job, k);
    ReplayOn(Staged(job, k), job.Ctx() + k, RestFields(job.pkt, k));
  }

  lemma {:induction false} RestInRange(job: Job, k: nat)
    requires job.Valid() && 1 <= k <= |job.pkt.bufs|
    ensures InRange(RestWrites(job, k), job.Count())
  {
    if k > 1 {
      RestInRange(job, k - 1);
    }
  }

  lemma {:induction false} RestStaged(job: Job, k: nat)
    requires job.Valid() && 1 <= k <= |job.pkt.bufs|
    requires InRange(RestWrites(job, k), job.Count())
    ensures Replay(Staged(job, 1), RestWrites(job, k)) == Staged(job, k)
  {
    if k > 1 {
      RestInRange(job, k - 1);
      RestStaged(job, k - 1);
      RestStep(job, k - 1);
      ReplayChain(Staged(job, 1), RestWrites(job, k - 1), On(job.Ctx() + k - 1, RestFields(job.pkt, k - 1)),
                  Staged(job, k - 1), Staged(job, k));
    }
  }

  lemma HeadStaged(job: Job)
    requires job.Valid()
    ensures InRange(HeadWrites(job), job.Count())
    ensures Replay(Blank(job.Count()), HeadWrites(job)) == Staged(job, 1)
  {
    var ctx := if job.Ctx() == 1 then On(0, ContextFields(job)) else [];
    var first := On(job.Ctx(), FirstFields(job));
    var blank := Blank(job.Count());
    ReplayConcat(blank, ctx, first);
    if job.Ctx() == 1 {
      ContextValue(job);
      ReplayOn(blank, 0, ContextFields(job));
    }
    assert Replay(blank, ctx) == Staged(job, 0);
    ReplayOn(Staged(job, 0), job.Ctx(), FirstFields(job));
    FirstValue(job);
    assert Staged(job, 0)[job.Ctx() := BufDesc(job, 0).(own := job.Ctx() == 1)] == Staged(job, 1);
  }

  function Closed(job: Job, d: Desc): Desc {
    d.(mark := d.mark.(ld := true, ic := job.interrupt))
  }

  lemma ClosingValue(job: Job, d: Desc)
    requires !d.mark.ic
    ensures PutAll(d, ClosingFields(job)) == Closed(job, d)
  {
    if job.interrupt {
      assert ClosingFields(job) == [PutLast, PutInterrupt];
      PutTwo(d, PutLast, PutInterrupt);
    } else {
      assert ClosingFields(job) == [PutLast];
      PutOne(d, PutLast);
    }
  }

  lemma StagedClosed(job: Job)
    requires job.Valid()
    ensures var n := job.Count();
      var staged := Staged(job, |job.pkt.bufs|);
      && !staged[n - 1].mark.ic
      && staged[n - 1 := Closed(job, staged[n - 1])] == Unpublished(job)
  {
    var n := job.Count();
    var m := |job.pkt.bufs|;
    var staged := Staged(job, m);
    assert staged[n - 1] == StagedAt(job, m, n - 1);
    var a := staged[n - 1 := Closed(job, staged[n - 1])];
    var b := Unpublished(job);
    forall j | 0 <= j < n ensures a[j] == b[j] {
      assert staged[j] == StagedAt(job, m, j);
      assert Encode(job)[j] == Encoded(job, j);
    }
  }

  lemma ClosingStep(job: Job)
    requires job.Valid()
    ensures Replay(Staged(job, |job.pkt.bufs|), On(job.Count() - 1, ClosingFields(job)))
            == Unpublished(job)
  {
    StagedClosed(job);
    var staged := Staged(job, |job.pkt.bufs|);
    ClosingValue(job, staged[job.Count() - 1]);
    ReplayOn(staged, job.Count() - 1, ClosingFields(job));
  }

  lemma LoopReplay(job: Job)
    requires job.Valid()
    ensures var ws := HeadWrites(job) + RestWrites(job, |job.pkt.bufs|);
      InRange(ws, job.Count()) && Replay(Blank(job.Count()), ws) == Staged(job, |job.pkt.bufs|)
  {
    var m := |job.pkt.bufs|;
    HeadStaged(job);
    RestInRange(job, m);
    RestStaged(job, m);
    ReplayChain(Blank(job.Count()), HeadWrites(job), RestWrites(job, m), Staged(job, 1), Staged(job, m));
  }

  // The block with everything written but the first OWN bit.
  function Unpublished(job: Job): seq<Desc>
    requires job.Valid()
  {
    Encode(job)[0 := Encode(job)[0].(own := false)]
  }

  /** Before the last write, the packet's block is complete except for the
      OWN bit of its first descriptor. */
  lemma BodyReplay(job: Job)
    requires job.Valid()
    ensures InRange(Body(job), job.Count())
    ensures Replay(Blank(job.Count()), Body(job)) == Unpublished(job)
  {
    LoopReplay(job);
    ClosingStep(job);
    ReplayChain(Blank(job.Count()), HeadWrites(job) + RestWrites(job, |job.pkt.bufs|),
                On(job.Count() - 1, ClosingFields(job)), Staged(job, |job.pkt.bufs|), Unpublished(job));
  }

  /** The whole script, replayed on reset descriptors, leaves exactly the
      encoded packet. */
  lemma ScriptReplay(job: Job)
    requires job.Valid()
    ensures InRange(Script(job), job.Count())
    ensures Replay(Blank(job.Count()), Script(job)) == Encode(job)
  {
    BodyReplay(job);
    ReplayConcat(Blank(job.Count()), Body(job), [Write(0, PutOwn)]);
    ReplayOn(Replay(Blank(job.Count()), Body(job)), 0, [PutOwn]);
    assert On(0, [PutOwn]) == [Write(0, PutOwn)];
    PutOne(Replay(Blank(job.Count()), Body(job))[0], PutOwn);
  }

  // ---------------------------------- the first descriptor is published last

  predicate Quiet(ws: seq<Write>) {
    forall k :: 0 <= k < |ws| ==> ws[k] != Write(0, PutOwn)
  }

  lemma PutKeepsOwn(d: Desc, f: Field)
    requires f != PutOwn
    ensures Put(d, f).own == d.own
  {
  }

  lemma {:induction false} OwnUntouched(ds: seq<Desc>, ws: seq<Write>)
    requires InRange(ws, |ds|) && Quiet(ws) && ds != [] && !ds[0].own
    ensures !Replay(ds, ws)[0].own
  {
    if ws != [] {
      var w := ws[|ws| - 1];
      var r := Replay(ds, ws[..|ws| - 1]);
      OwnUntouched(ds, ws[..|ws| - 1]);
      if w.j == 0 {
        PutKeepsOwn(r[0], w.f);
      }
    }
  }

  lemma {:induction false} RestQuiet(job: Job, k: nat)
    requires job.Valid() && 1 <= k <= |job.pkt.bufs|
    ensures Quiet(RestWrites(job, k))
  {
    if k > 1 {
      RestQuiet(job, k - 1);
    }
  }

  lemma HeadQuiet(job: Job)
    requires job.Valid()
    ensures Quiet(HeadWrites(job))
  {
    assert PutOwn !in ContextFields(job);
    if job.Ctx() == 0 {
      assert PutOwn !in OffloadFields(job.pkt);
      assert PutOwn !in FirstFields(job);
    }
  }

  /** However many writes of the script have been made, short of all of them,
      the packet's first descriptor still belongs to the driver. */
  lemma NotYetPublished(job: Job, k: nat)
    requires job.Valid() && k < |Script(job)|
    ensures InRange(Script(job)[..k], job.Count())
    ensures !Replay(Blank(job.Count()), Script(job)[..k])[0].own
  {
    BodyReplay(job);
    HeadQuiet(job);
    RestQuiet(job, |job.pkt.bufs|);
    assert Quiet(Body(job));
    assert Script(job)[..k] == Body(job)[..k];
    OwnUntouched(Blank(job.Count()), Body(job)[..k]);
  }
}
