/** The transmit ring as three parties see it at once: the thread in
    `mac_xmit`, whose descriptor writes are taken one at a time, the device,
    and the thread in `mac_tx_poll`. Indices are unbounded here; `TxRing`
    relates them to the driver's 32-bit ones. */
module TxProtocol {
  import opened Common
  import opened TxSlots
  import opened TxWire
  import TxCoalesce
  import TxDevice
  import TxPacket

  const RING: nat := 4096          // MAC_TX_DESC_CNT
  const MIN_FREE: nat := 512       // MAC_TX_DESC_MIN_FREE
  const MAX_PROC: nat := 2048      // MAC_TX_DESC_MAX_PROC

  datatype Ring = Ring(desc: seq<Desc>, data: seq<Slot>, cur: nat, dirty: nat, hw: nat)
  {
    predicate Shaped() { |desc| == RING && |data| == RING }

    // mac_tx_avail_desc
    function Avail(): int { RING - (cur - dirty) }

    // MAC_GET_DESC_DATA: the entries of a free-running index.
    function D(i: nat): Desc requires Shaped() { desc[i % RING] }

    function S(i: nat): Slot requires Shaped() { data[i % RING] }
  }

  // Where `mac_xmit` is. Mapping touches only private slots past `cur`, which
  // nobody else reads, so it is one step.
  datatype Xmit =
    | Idle
    | Writing(job: Job, slots: seq<Slot>, k: nat)   // k writes of the script made
    | Published(job: Job)                           // all made, cur not yet advanced
    | Advanced                                      // cur advanced, doorbell not decided
    | Checking                                      // about to look whether the next packet is sure to fit
    | Halting                                       // it is not: about to stop the queue

  // Where `mac_tx_poll` is; `limit` is the copy of cur it works up to.
  datatype Poll = Resting | Polling(limit: nat, processed: nat, packets: nat, bytes: nat)

  // Queue control: `more` is ring->tx.xmit_more, `doorbell` the last tail
  // index written to the device.
  datatype Queue = Queue(stopped: bool, more: bool, doorbell: nat)

  // ring->tx.cur_mss and cur_vlan_ctag, ring->coalesce_count, and what the stack
  // has been told: bytes by netdev_tx_sent_queue, bytes and frames by
  // netdev_tx_completed_queue.
  datatype Books = Books(mss: nat, tag: nat, count: nat, queued: nat, completed: nat, reported: nat)

  // Calls to the DMA layer and packets freed. By the sender: mappings made for
  // packets accepted, and made and undone for those it gave up, and the packets
  // it freed itself. By the reclaimer: mappings undone and packets freed.
  datatype Ledger = Ledger(mapped: seq<Mapping>, refused: seq<Mapping>, back: seq<Mapping>, dropped: seq<nat>,
                           undone: seq<Mapping>, freed: seq<nat>)

  // What has happened: packets published, their descriptors and slots, and
  // the descriptors the device consumed.
  datatype Past = Past(jobs: seq<Job>, sent: seq<Desc>, kept: seq<Slot>, log: seq<Desc>)

  // `frames` is pdata->tx_frames; `missed` says that since the last check that
  // led to a stop, and before that stop, a poll ended that had reclaimed
  // something: it looked for a stopped queue too early.
  datatype World = World(frames: nat, ring: Ring, xmit: Xmit, poll: Poll, queue: Queue, missed: bool, books: Books,
                         ledger: Ledger, past: Past)

  function Start(frames: nat): World {
    World(frames, Ring(seq(RING, i => ZERO), seq(RING, i => EMPTY), 0, 0, 0), Idle, Resting,
          Queue(false, false, 0), false, Books(0, 0, 0, 0, 0, 0), Ledger([], [], [], [], [], []), Past([], [], [], []))
  }

  datatype Action =
    | Consume                                             // device
    | Offer(job: Job, slots: seq<Slot>, estimate: nat)    // mac_xmit, up to the first write
    | Advance(hold: bool)                                 // mac_xmit, next step; hold: xmit_more and queue running
    | Refuse(id: nat, ctx: nat, made: seq<Mapping>)       // mac_xmit, a mapping having failed after those in `made`
    | TurnAway(id: nat)                                   // mac_xmit, an empty packet or one with an unwritable header
    | PollBegin
    | PollSlot
    | PollEnd

  // Writes `slots` to consecutive ring entries starting at index `i`.
  function Place<T>(data: seq<T>, i: nat, slots: seq<T>): (r: seq<T>)
    requires |data| == RING && |slots| <= RING
    ensures |r| == RING
  {
    seq(RING, q requires 0 <= q < RING =>
      if (q - i) % RING < |slots| then slots[(q - i) % RING] else data[q])
  }

  // The slot of the packet's k-th buffer records the buffer's mapping.
  predicate SlotOf(job: Job, slots: seq<Slot>, k: nat)
    requires job.Valid() && |slots| == job.Count() && k < |job.pkt.bufs|
  {
    var s := slots[job.Ctx() + k];
    s.dma == job.pkt.bufs[k].addr && s.dmaLen == job.pkt.bufs[k].len > 0
  }

  // A packet ready for `mac_dev_xmit`: one slot per descriptor, a context
  // descriptor's unused, with the packet and its counts on the last.
  ghost predicate Ready(job: Job, slots: seq<Slot>) {
    && job.Valid()
    && |slots| == job.Count()
    && slots[|slots| - 1].bytes == job.pkt.txBytes && slots[|slots| - 1].packets == job.pkt.txPackets
    && (forall i :: 0 <= i < |slots| ==> (slots[i].skb.Some? <==> i == |slots| - 1))
    && (job.Ctx() == 1 ==> Vacant(slots[0]))
    && forall k: nat :: k < |job.pkt.bufs| ==> SlotOf(job, slots, k)
  }

  // The packet's frames, and whether it asks for an interrupt, given the count
  // of frames before it.
  predicate Metered(job: Job, count: nat, frames: nat) {
    && 0 < job.pkt.txPackets < WORD32 && job.Count() <= TxPacket.MAX_DESC_NR
    && job.interrupt == TxCoalesce.Interrupts(TxCoalesce.Counted(count, job.pkt.txPackets), job.pkt.txPackets, frames)
  }

  ghost predicate CanWrite(x: Xmit) {
    && x.Writing?
    && Ready(x.job, x.slots)
    && x.k < |Script(x.job)|
    && Script(x.job)[x.k].j < x.job.Count()
  }

  ghost predicate Enabled(w: World, a: Action) {
    && w.ring.Shaped()
    && match a
       case Consume => w.ring.D(w.ring.hw).own
       case Offer(job, slots, estimate) =>
         && w.xmit.Idle? && !w.queue.stopped
         && Ready(job, slots) && TxDevice.Decided(job, w.books.mss, w.books.tag) && Metered(job, w.books.count, w.frames)
         && job.Count() <= estimate <= TxPacket.MAX_DESC_NR
       case Advance(hold) =>
         !w.xmit.Idle? && (w.xmit.Writing? ==> CanWrite(w.xmit)) && (w.xmit.Published? ==> w.xmit.job.Valid())
       case Refuse(_, ctx, made) =>
         && w.xmit.Idle? && !w.queue.stopped && ctx <= 1
         && ctx + |made| <= w.ring.Avail() && ctx + |made| <= TxPacket.MAX_DESC_NR
       case TurnAway(_) => w.xmit.Idle? && !w.queue.stopped
       case PollBegin => w.poll.Resting?
       case PollSlot =>
         && w.poll.Polling? && w.poll.processed < MAX_PROC
         && w.ring.dirty != w.poll.limit && !w.ring.D(w.ring.dirty).own
       case PollEnd =>
         && w.poll.Polling?
         && (w.poll.processed >= MAX_PROC || w.ring.dirty == w.poll.limit || w.ring.D(w.ring.dirty).own)
  }

  // What mac_maybe_stop_tx_queue does to the queue, and the end of mac_dev_xmit.
  function Stopping(q: Queue, busy: bool, cur: nat): Queue {
    if busy then Queue(true, false, if q.more then cur else q.doorbell) else q
  }

  function Handing(q: Queue, hold: bool, cur: nat): Queue {
    if hold then q.(more := true) else q.(doorbell := cur, more := false)
  }

  // One write of the script.
  ghost function WriteOne(r: Ring, x: Xmit): Ring
    requires r.Shaped() && CanWrite(x)
  {
    var write := Script(x.job)[x.k];
    var i := r.cur + write.j;
    r.(desc := r.desc[i % RING := Put(r.D(i), write.f)])
  }

  function Publish(p: Past, job: Job, slots: seq<Slot>): Past
    requires job.Valid()
  {
    Past(p.jobs + [job], p.sent + Encode(job), p.kept + slots, p.log)
  }

  // The mappings recorded on a packet's slots.
  function MappingsOf(job: Job, slots: seq<Slot>): seq<Mapping>
    requires |slots| == job.Count()
  {
    seq(|job.pkt.bufs|, k requires 0 <= k < |job.pkt.bufs| => MappingIn(slots[job.Ctx() + k]))
  }

  ghost function WriteNext(w: World): World
    requires w.ring.Shaped() && CanWrite(w.xmit)
  {
    var job, k := w.xmit.job, w.xmit.k;
    var r := WriteOne(w.ring, w.xmit);
    if k + 1 < |Script(job)| then w.(ring := r, xmit := w.xmit.(k := k + 1))
    else
      w.(ring := r, xmit := Published(job),
         books := w.books.(mss := TxDevice.NextMss(job, w.books.mss), tag := TxDevice.NextTag(job, w.books.tag),
                           count := TxCoalesce.Counted(w.books.count, job.pkt.txPackets)),
         past := Publish(w.past, job, w.xmit.slots))
  }

  ghost function XmitNext(w: World, hold: bool): World
    requires Enabled(w, Advance(hold))
  {
    match w.xmit
    case Writing(_, _, _) => WriteNext(w)
    case Published(job) => w.(ring := w.ring.(cur := w.ring.cur + job.Count()), xmit := Advanced)
    case Advanced =>
      w.(queue := Handing(w.queue, hold, w.ring.cur), xmit := Checking)
    case Checking => if TxPacket.MAX_DESC_NR > w.ring.Avail() then w.(xmit := Halting, missed := false) else w.(xmit := Idle)
    case Halting => w.(queue := Stopping(w.queue, true, w.ring.cur), xmit := Idle)
  }

  function ReclaimOne(r: Ring): Ring
    requires r.Shaped()
  {
    r.(desc := r.desc[r.dirty % RING := ZERO], data := r.data[r.dirty % RING := Unmapped(r.S(r.dirty))], dirty := r.dirty + 1)
  }

  function ReclaimN(r: Ring, n: nat): Ring
    requires r.Shaped()
    decreases n
  {
    if n == 0 then r else ReclaimN(ReclaimOne(r), n - 1)
  }

  function Count(p: Poll, d: Desc, s: Slot): Poll
    requires p.Polling?
  {
    if d.mark.ld then p.(processed := p.processed + 1, packets := p.packets + s.packets, bytes := p.bytes + s.bytes)
    else p.(processed := p.processed + 1)
  }

  function PollDone(w: World): World
    requires w.poll.Polling?
  {
    if w.poll.processed == 0 then w.(poll := Resting)
    else
      w.(books := w.books.(completed := w.books.completed + w.poll.bytes, reported := w.books.reported + w.poll.packets), poll := Resting,
         queue := w.queue.(stopped := w.queue.stopped && w.ring.Avail() <= MIN_FREE), missed := w.missed || w.xmit.Halting?)
  }

  function ConsumeOne(r: Ring): Ring
    requires r.Shaped()
  {
    r.(desc := r.desc[r.hw % RING := r.D(r.hw).(own := false)], hw := r.hw + 1)
  }

  ghost function Next(w: World, a: Action): World
    requires Enabled(w, a)
  {
    match a
    case Consume => w.(ring := ConsumeOne(w.ring), past := w.past.(log := w.past.log + [w.ring.D(w.ring.hw)]))
    case Offer(job, slots, estimate) =>
      if estimate > w.ring.Avail() then w.(xmit := Halting, missed := false)
      else
        w.(ring := w.ring.(data := Place(w.ring.data, w.ring.cur, slots)), xmit := Writing(job, slots, 0),
           books := w.books.(queued := w.books.queued + job.pkt.txBytes),
           ledger := w.ledger.(mapped := w.ledger.mapped + MappingsOf(job, slots)))
    case Advance(hold) => XmitNext(w, hold)
    case Refuse(id, ctx, made) =>
      w.(ring := w.ring.(data := Place(w.ring.data, w.ring.cur + ctx, Leftovers(made))),
         ledger := w.ledger.(refused := w.ledger.refused + made, back := w.ledger.back + Live(made),
                             dropped := w.ledger.dropped + [id]))
    case TurnAway(id) => w.(ledger := w.ledger.(dropped := w.ledger.dropped + [id]))
    case PollBegin => w.(poll := Polling(w.ring.cur, 0, 0, 0))
    case PollSlot =>
      w.(ring := ReclaimOne(w.ring), poll := Count(w.poll, w.ring.D(w.ring.dirty), w.ring.S(w.ring.dirty)),
         ledger := w.ledger.(undone := w.ledger.undone + Unmaps(w.ring.S(w.ring.dirty)),
                             freed := w.ledger.freed + Frees(w.ring.S(w.ring.dirty))))
    case PollEnd => PollDone(w)
  }

  // -------------------------------------------------------------- invariant

  // One past the last descriptor handed to the device.
  function Tail(r: Ring, x: Xmit): nat {
    if x.Published? then r.cur + x.job.Count() else r.cur
  }

  // One past the last descriptor the driver is using.
  function End(r: Ring, x: Xmit): nat {
    if x.Writing? then r.cur + x.job.Count() else Tail(r, x)
  }

  predicate Ordered(r: Ring, x: Xmit) {
    && r.dirty <= r.hw <= Tail(r, x)
    && r.dirty <= r.cur
    && End(r, x) <= r.dirty + RING
  }

  // The history covers exactly what was handed over, and the device consumed
  // a prefix of it.
  predicate Logged(r: Ring, x: Xmit, p: Past) {
    && |p.sent| == Tail(r, x) && |p.kept| == Tail(r, x)
    && r.hw <= Tail(r, x)
    && p.log == p.sent[..r.hw]
  }

  ghost predicate InProgress(x: Xmit) {
    && (x.Writing? ==> Ready(x.job, x.slots) && x.k < |Script(x.job)|)
    && (x.Published? ==> x.job.Valid())
  }

  // The content of entry `i` once it has been handed over.
  predicate HandedAt(r: Ring, p: Past, i: nat)
    requires r.Shaped() && i < |p.sent| && i < |p.kept|
  {
    p.sent[i].own && r.D(i) == p.sent[i].(own := i >= r.hw) && r.S(i) == p.kept[i]
  }

  // Handed-over descriptors hold exactly what was meant, OWN apart.
  ghost predicate Handed(r: Ring, x: Xmit, p: Past)
    requires r.Shaped() && Logged(r, x, p)
  {
    forall i: nat {:trigger HandedAt(r, p, i)} :: r.dirty <= i < Tail(r, x) ==> HandedAt(r, p, i)
  }

  // The block of the packet being written, after the writes made so far.
  ghost function SoFar(x: Xmit): seq<Desc>
    requires InProgress(x) && x.Writing? && InRange(Script(x.job)[..x.k], x.job.Count())
  {
    Replay(Blank(x.job.Count()), Script(x.job)[..x.k])
  }

  ghost predicate PartialAt(r: Ring, x: Xmit, i: nat)
    requires r.Shaped() && InProgress(x) && x.Writing? && InRange(Script(x.job)[..x.k], x.job.Count())
    requires r.cur <= i < r.cur + x.job.Count()
  {
    r.D(i) == SoFar(x)[i - r.cur] && r.S(i) == x.slots[i - r.cur]
  }

  ghost predicate Partial(r: Ring, x: Xmit)
    requires r.Shaped() && InProgress(x)
  {
    x.Writing? ==>
      && InRange(Script(x.job)[..x.k], x.job.Count())
      && forall i: nat {:trigger PartialAt(r, x, i)} :: r.cur <= i < r.cur + x.job.Count() ==> PartialAt(r, x, i)
  }

  predicate ClearAt(r: Ring, i: nat)
    requires r.Shaped()
  {
    r.D(i) == ZERO && Vacant(r.S(i))
  }

  // Every descriptor outside the window is reset and its slot vacant.
  ghost predicate Clear(r: Ring, x: Xmit)
    requires r.Shaped()
  {
    forall i: nat {:trigger ClearAt(r, i)} :: End(r, x) <= i < r.dirty + RING ==> ClearAt(r, i)
  }

  ghost predicate Sound(r: Ring, x: Xmit, p: Past) {
    && r.Shaped() && Ordered(r, x) && Logged(r, x, p) && InProgress(x)
    && Handed(r, x, p) && Partial(r, x) && Clear(r, x)
  }

  predicate SameAt(r: Ring, v: Ring, i: nat)
    requires r.Shaped() && v.Shaped()
  {
    v.D(i) == r.D(i) && v.S(i) == r.S(i)
  }

  // Within one turn of the ring, `v` differs from `r` at index `j` at most.
  lemma OneWrite(r: Ring, v: Ring, j: nat, i: nat)
    requires r.Shaped() && v.Shaped() && r.dirty <= j < r.dirty + RING && r.dirty <= i < r.dirty + RING && i != j
    requires v.desc == r.desc[j % RING := v.desc[j % RING]]
    requires v.data == r.data[j % RING := v.data[j % RING]]
    ensures SameAt(r, v, i)
  {
    if i < j {
      SameSlot(i, j);
    } else {
      SameSlot(j, i);
    }
  }

  // The device finds nothing to do past the last descriptor handed over.
  lemma BlockedAtTail(r: Ring, x: Xmit, p: Past)
    requires Sound(r, x, p) && r.hw == Tail(r, x)
    ensures !r.D(r.hw).own
  {
    hide Script, Encode, Put;
    if r.hw == r.dirty + RING {
      NextLap(r.dirty);
      assert HandedAt(r, p, r.dirty);
    } else if x.Writing? {
      NotYetPublished(x.job, x.k);
      assert PartialAt(r, x, r.hw);
    } else {
      assert ClearAt(r, r.hw);
    }
  }

  lemma ConsumeHanded(r: Ring, x: Xmit, p: Past, q: Past)
    requires r.Shaped() && Ordered(r, x) && Logged(r, x, p) && Handed(r, x, p) && r.hw < Tail(r, x)
    requires q.sent == p.sent && q.kept == p.kept && Logged(ConsumeOne(r), x, q)
    ensures Handed(ConsumeOne(r), x, q)
  {
    var v := ConsumeOne(r);
    forall i: nat | r.dirty <= i < Tail(r, x) ensures HandedAt(v, q, i) {
      assert HandedAt(r, p, i);
      if i != r.hw {
        OneWrite(r, v, r.hw, i);
      }
    }
  }

  lemma ConsumeFrame(r: Ring, x: Xmit)
    requires r.Shaped() && Ordered(r, x) && InProgress(x) && Partial(r, x) && Clear(r, x) && r.hw < Tail(r, x)
    ensures Partial(ConsumeOne(r), x) && Clear(ConsumeOne(r), x)
  {
    hide Script, Put, Encode;
    var v := ConsumeOne(r);
    if x.Writing? {
      forall i: nat | r.cur <= i < r.cur + x.job.Count() ensures PartialAt(v, x, i) {
        assert PartialAt(r, x, i);
        OneWrite(r, v, r.hw, i);
      }
    }
    forall i: nat | End(r, x) <= i < r.dirty + RING ensures ClearAt(v, i) {
      assert ClearAt(r, i);
      OneWrite(r, v, r.hw, i);
    }
  }

  lemma ConsumeKeeps(r: Ring, x: Xmit, p: Past)
    requires Sound(r, x, p) && r.D(r.hw).own
    ensures r.hw < Tail(r, x) && r.D(r.hw) == p.sent[r.hw]
    ensures Sound(ConsumeOne(r), x, p.(log := p.log + [r.D(r.hw)]))
  {
    if r.hw == Tail(r, x) {
      BlockedAtTail(r, x, p);
    }
    assert HandedAt(r, p, r.hw);
    assert p.sent[..r.hw + 1] == p.sent[..r.hw] + [p.sent[r.hw]];
    ConsumeHanded(r, x, p, p.(log := p.log + [r.D(r.hw)]));
    ConsumeFrame(r, x);
  }

  lemma ReclaimClears(r: Ring, x: Xmit)
    requires r.Shaped() && Clear(r, x) && r.dirty < End(r, x) <= r.dirty + RING
    ensures Clear(ReclaimOne(r), x)
  {
    var v := ReclaimOne(r);
    forall i: nat | End(v, x) <= i < v.dirty + RING ensures ClearAt(v, i) {
      if i < r.dirty + RING {
        assert ClearAt(r, i);
        OneWrite(r, v, r.dirty, i);
      } else {
        NextLap(r.dirty);
      }
    }
  }

  lemma ReclaimHanded(r: Ring, x: Xmit, p: Past)
    requires r.Shaped() && Ordered(r, x) && Logged(r, x, p) && InProgress(x) && r.dirty < r.hw && r.dirty < r.cur
    requires Handed(r, x, p) && Partial(r, x)
    ensures Handed(ReclaimOne(r), x, p) && Partial(ReclaimOne(r), x)
  {
    hide Script, Put, Encode;
    var v := ReclaimOne(r);
    forall i: nat | v.dirty <= i < Tail(v, x) ensures HandedAt(v, p, i) {
      assert HandedAt(r, p, i);
      OneWrite(r, v, r.dirty, i);
    }
    if x.Writing? {
      forall i: nat | r.cur <= i < r.cur + x.job.Count() ensures PartialAt(v, x, i) {
        assert PartialAt(r, x, i);
        OneWrite(r, v, r.dirty, i);
      }
    }
  }

  lemma ReclaimKeeps(r: Ring, x: Xmit, p: Past)
    requires Sound(r, x, p) && r.dirty < r.cur && !r.D(r.dirty).own
    ensures r.dirty < r.hw && HandedAt(r, p, r.dirty)
    ensures Sound(ReclaimOne(r), x, p)
  {
    assert HandedAt(r, p, r.dirty);
    ReclaimClears(r, x);
    ReclaimHanded(r, x, p);
  }

  lemma PlaceAt<T>(data: seq<T>, base: nat, slots: seq<T>, low: nat, i: nat)
    requires |data| == RING && |slots| <= RING
    requires low <= base && base + |slots| <= low + RING && low <= i < low + RING
    ensures Place(data, base, slots)[i % RING] == if base <= i < base + |slots| then slots[i - base] else data[i % RING]
  {
    var q := i % RING;
    assert (q - base) % RING == if i >= base then i - base else i - base + RING;
  }

  lemma OfferKeeps(r: Ring, p: Past, job: Job, slots: seq<Slot>)
    requires Sound(r, Idle, p) && Ready(job, slots) && job.Count() <= r.Avail()
    ensures Sound(r.(data := Place(r.data, r.cur, slots)), Writing(job, slots, 0), p)
  {
    hide Script, Put, Encode, Place;
    var v := r.(data := Place(r.data, r.cur, slots));
    var x := Writing(job, slots, 0);
    NothingWritten(job);
    forall i: nat | r.dirty <= i < r.cur ensures HandedAt(v, p, i) {
      assert HandedAt(r, p, i);
      PlaceAt(r.data, r.cur, slots, r.dirty, i);
    }
    forall i: nat | r.cur <= i < r.cur + job.Count() ensures PartialAt(v, x, i) {
      assert ClearAt(r, i);
      PlaceAt(r.data, r.cur, slots, r.dirty, i);
    }
    forall i: nat | End(v, x) <= i < r.dirty + RING ensures ClearAt(v, i) {
      assert ClearAt(r, i);
      PlaceAt(r.data, r.cur, slots, r.dirty, i);
    }
  }

  // A packet given up leaves the free part of the ring as it must be.
  lemma RefuseKeeps(r: Ring, p: Past, ctx: nat, made: seq<Mapping>)
    requires Sound(r, Idle, p) && ctx + |made| <= r.Avail()
    ensures Sound(r.(data := Place(r.data, r.cur + ctx, Leftovers(made))), Idle, p)
  {
    hide Encode, Place;
    var v := r.(data := Place(r.data, r.cur + ctx, Leftovers(made)));
    forall i: nat | r.dirty <= i < r.cur ensures HandedAt(v, p, i) {
      assert HandedAt(r, p, i);
      PlaceAt(r.data, r.cur + ctx, Leftovers(made), r.dirty, i);
    }
    forall i: nat | r.cur <= i < r.dirty + RING ensures ClearAt(v, i) {
      assert ClearAt(r, i);
      PlaceAt(r.data, r.cur + ctx, Leftovers(made), r.dirty, i);
    }
  }

  lemma NothingWritten(job: Job)
    requires job.Valid()
    ensures 0 < |Script(job)| && Script(job)[..0] == [] && InRange([], job.Count())
    ensures Replay(Blank(job.Count()), []) == Blank(job.Count())
  {
  }

  lemma CanAlwaysWrite(x: Xmit)
    requires InProgress(x) && x.Writing?
    ensures CanWrite(x) && InRange(Script(x.job)[..x.k + 1], x.job.Count())
  {
    ScriptReplay(x.job);
  }

  // What one more write does to the block.
  lemma WriteBlock(r: Ring, x: Xmit)
    requires r.Shaped() && InProgress(x) && x.Writing? && Partial(r, x) && CanWrite(x)
    requires r.dirty <= r.cur && End(r, x) <= r.dirty + RING
    requires InRange(Script(x.job)[..x.k + 1], x.job.Count())
    ensures forall i: nat {:trigger Wrote(r, x, i)} :: r.cur <= i < r.cur + x.job.Count() ==> Wrote(r, x, i)
  {
    hide Script, Put, Blank;
    ReplaySnoc(Blank(x.job.Count()), Script(x.job), x.k);
    var before, after := SoFar(x), Replay(Blank(x.job.Count()), Script(x.job)[..x.k + 1]);
    forall i: nat | r.cur <= i < r.cur + x.job.Count() ensures Wrote(r, x, i) {
      assert PartialAt(r, x, i);
      WroteAt(r, x, before, after, i);
    }
  }

  lemma WroteAt(r: Ring, x: Xmit, before: seq<Desc>, after: seq<Desc>, i: nat)
    requires r.Shaped() && CanWrite(x) && InRange(Script(x.job)[..x.k + 1], x.job.Count())
    requires r.dirty <= r.cur <= i < r.cur + x.job.Count() <= r.dirty + RING
    requires |before| == x.job.Count() && before[i - r.cur] == r.D(i) && x.slots[i - r.cur] == r.S(i)
    requires after == Replay(Blank(x.job.Count()), Script(x.job)[..x.k + 1])
    requires var w := Script(x.job)[x.k]; after == before[w.j := Put(before[w.j], w.f)]
    ensures Wrote(r, x, i)
  {
    hide Script, Put, Blank, Replay;
    var w := Script(x.job)[x.k];
    if i != r.cur + w.j {
      OneWrite(r, WriteOne(r, x), r.cur + w.j, i);
    }
  }

  // Entry `i` of the block after the next write.
  ghost predicate Wrote(r: Ring, x: Xmit, i: nat)
    requires r.Shaped() && CanWrite(x) && InRange(Script(x.job)[..x.k + 1], x.job.Count())
    requires r.cur <= i < r.cur + x.job.Count()
  {
    var v := WriteOne(r, x);
    && v.D(i) == Replay(Blank(x.job.Count()), Script(x.job)[..x.k + 1])[i - r.cur]
    && v.S(i) == x.slots[i - r.cur]
  }

  lemma WriteElsewhere(r: Ring, x: Xmit, i: nat)
    requires r.Shaped() && CanWrite(x) && r.dirty <= r.cur && End(r, x) <= r.dirty + RING
    requires r.dirty <= i < r.cur || End(r, x) <= i < r.dirty + RING
    ensures SameAt(r, WriteOne(r, x), i)
  {
    hide Script, Put;
    OneWrite(r, WriteOne(r, x), r.cur + Script(x.job)[x.k].j, i);
  }

  lemma WriteKeeps(r: Ring, x: Xmit, p: Past)
    requires Sound(r, x, p) && x.Writing? && CanWrite(x) && x.k + 1 < |Script(x.job)|
    ensures Sound(WriteOne(r, x), x.(k := x.k + 1), p)
  {
    var v, y := WriteOne(r, x), x.(k := x.k + 1);
    CanAlwaysWrite(x);
    WriteBlock(r, x);
    hide Script, Replay, Put, Encode;
    forall i: nat | r.dirty <= i < r.cur ensures HandedAt(v, p, i) {
      assert HandedAt(r, p, i);
      WriteElsewhere(r, x, i);
    }
    forall i: nat | r.cur <= i < r.cur + x.job.Count() ensures PartialAt(v, y, i) {
      assert Wrote(r, x, i);
    }
    forall i: nat | End(r, x) <= i < r.dirty + RING ensures ClearAt(v, i) {
      assert ClearAt(r, i);
      WriteElsewhere(r, x, i);
    }
  }

  // The last write completes the block.
  lemma WroteLast(r: Ring, x: Xmit, p: Past, i: nat)
    requires r.Shaped() && CanWrite(x) && x.k + 1 == |Script(x.job)| && r.hw <= r.cur == |p.sent| == |p.kept|
    requires InRange(Script(x.job)[..x.k + 1], x.job.Count()) && r.cur <= i < r.cur + x.job.Count() && Wrote(r, x, i)
    ensures HandedAt(WriteOne(r, x), Publish(p, x.job, x.slots), i)
  {
    ScriptReplay(x.job);
    assert Script(x.job)[..x.k + 1] == Script(x.job);
    hide Script, Replay, Put;
    assert Encode(x.job)[i - r.cur] == Encoded(x.job, i - r.cur);
  }

  lemma PublishKeeps(r: Ring, x: Xmit, p: Past)
    requires Sound(r, x, p) && x.Writing? && CanWrite(x) && x.k + 1 == |Script(x.job)|
    ensures Sound(WriteOne(r, x), Published(x.job), Publish(p, x.job, x.slots))
  {
    var v, y, q := WriteOne(r, x), Published(x.job), Publish(p, x.job, x.slots);
    CanAlwaysWrite(x);
    WriteBlock(r, x);
    hide Script, Replay, Put;
    assert q.sent[..r.hw] == p.sent[..r.hw];
    forall i: nat | r.dirty <= i < End(r, x) ensures HandedAt(v, q, i) {
      if i < r.cur {
        assert HandedAt(r, p, i);
        WriteElsewhere(r, x, i);
      } else {
        assert Wrote(r, x, i);
        WroteLast(r, x, p, i);
      }
    }
    forall i: nat | End(r, x) <= i < r.dirty + RING ensures ClearAt(v, i) {
      assert ClearAt(r, i);
      WriteElsewhere(r, x, i);
    }
  }

  lemma MoveKeeps(r: Ring, job: Job, p: Past)
    requires Sound(r, Published(job), p)
    ensures Sound(r.(cur := r.cur + job.Count()), Advanced, p)
  {
    var v := r.(cur := r.cur + job.Count());
    forall i: nat | r.dirty <= i < v.cur ensures HandedAt(v, p, i) {
      assert HandedAt(r, p, i);
    }
    forall i: nat | v.cur <= i < r.dirty + RING ensures ClearAt(v, i) {
      assert ClearAt(r, i);
    }
  }

  // Sound depends on the writer only through the packet it is writing.
  lemma StageKeeps(r: Ring, x: Xmit, y: Xmit, p: Past)
    requires Sound(r, x, p) && !x.Writing? && !x.Published? && !y.Writing? && !y.Published?
    ensures Sound(r, y, p)
  {
    forall i: nat | r.dirty <= i < r.cur ensures HandedAt(r, p, i) {
    }
    forall i: nat | r.cur <= i < r.dirty + RING ensures ClearAt(r, i) {
    }
  }

  predicate Bounded(r: Ring, poll: Poll) {
    poll.Polling? ==> r.dirty <= poll.limit <= r.cur
  }

  ghost predicate RingInv(w: World) {
    Sound(w.ring, w.xmit, w.past) && Bounded(w.ring, w.poll)
  }

  lemma RingStart(frames: nat)
    ensures RingInv(Start(frames))
  {
  }

  lemma Fields(r: Ring, x: Xmit, p: Past)
    requires Sound(r, x, p)
    ensures r.Shaped() && InProgress(x) && r.dirty <= r.hw <= Tail(r, x) && r.dirty <= r.cur && End(r, x) <= r.dirty + RING
  {
  }

  lemma XmitKeeps(w: World, hold: bool)
    requires RingInv(w) && Enabled(w, Advance(hold))
    ensures RingInv(XmitNext(w, hold))
  {
    hide Script, Put, Sound, Encode;
    Fields(w.ring, w.xmit, w.past);
    match w.xmit {
      case Writing(job, _, k) =>
        if k + 1 < |Script(job)| {
          WriteKeeps(w.ring, w.xmit, w.past);
        } else {
          PublishKeeps(w.ring, w.xmit, w.past);
        }
      case Published(job) => MoveKeeps(w.ring, job, w.past);
      case Advanced => StageKeeps(w.ring, Advanced, Checking, w.past);
      case Checking => StageKeeps(w.ring, Checking, if TxPacket.MAX_DESC_NR > w.ring.Avail() then Halting else Idle, w.past);
      case Halting => StageKeeps(w.ring, Halting, Idle, w.past);
    }
  }

  /** Every step of every party keeps the ring in order. */
  lemma RingStep(w: World, a: Action)
    requires RingInv(w) && Enabled(w, a)
    ensures RingInv(Next(w, a))
  {
    match a
    case Consume => ConsumeKeeps(w.ring, w.xmit, w.past);
    case Offer(job, slots, estimate) =>
      if estimate <= w.ring.Avail() {
        OfferKeeps(w.ring, w.past, job, slots);
      } else {
        StageKeeps(w.ring, Idle, Halting, w.past);
      }
    case Advance(hold) => XmitKeeps(w, hold);
    case Refuse(_, ctx, made) => RefuseKeeps(w.ring, w.past, ctx, made);
    case TurnAway(_) =>
    case PollBegin =>
    case PollSlot => ReclaimKeeps(w.ring, w.xmit, w.past);
    case PollEnd =>
  }
}
