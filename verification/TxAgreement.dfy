/** The sequential code and the interleaved machine agree: what `mac_xmit` and
    `mac_tx_poll` do to the ring when nobody interferes is a run of the steps
    that `TxProtocol` and `TxSafety` reason about. */
module TxAgreement {
  import opened Common
  import opened TxPacket
  import opened TxProtocol
  import opened TxSlots
  import opened TxWire
  import C = TxCoalesce
  import D = TxDevice
  import G = TxLedger
  import L = TxReclaim
  import M = TxMapping
  import R = TxRing
  import S = TxSafety
  import W = TxWaking

  // ---------------------------------------------------------------- polling

  // The loop goes on exactly as long as the device is ahead.
  lemma MoreIs(r: Ring, p: Past)
    requires Sound(r, Idle, p)
    ensures L.More(r) <==> r.dirty < r.hw
  {
    if r.dirty < r.cur {
      assert HandedAt(r, p, r.dirty);
    }
  }

  /** The loop of mac_tx_poll reclaims everything completed, up to its limit. */
  lemma {:induction false} LoopReclaims(s: L.Totals, p: Past, fuel: nat)
    requires Sound(s.ring, Idle, p)
    ensures s.ring.Shaped() && s.ring.dirty <= s.ring.hw
    ensures var n := Min(fuel, s.ring.hw - s.ring.dirty);
      && L.PollLoop(s, fuel).ring == ReclaimN(s.ring, n) && L.PollLoop(s, fuel).count == s.count + n
      && L.PollLoop(s, fuel) == L.PollLoop(s, n)
    decreases fuel
  {
    MoreIs(s.ring, p);
    if fuel > 0 && L.More(s.ring) {
      ReclaimKeeps(s.ring, Idle, p);
      L.PollOn(s, fuel);
      L.PollOn(s, Min(fuel, s.ring.hw - s.ring.dirty));
      LoopReclaims(L.PollNext(s), p, fuel - 1);
    } else {
      L.PollStops(s, fuel);
    }
  }

  // The machine's poll and the loop have the same totals.
  predicate SameTotals(w: World, s: L.Totals) {
    && w.poll.Polling? && s.ring == w.ring && s.count == w.poll.processed
    && s.packets == w.poll.packets && s.bytes == w.poll.bytes
  }

  // All that has changed from `w` to `v`, the loop going from `s` to `t`: the
  // mappings undone and the packets freed are the loop's.
  function Reclaimed(w: World, v: World, s: L.Totals, t: L.Totals): World {
    w.(ring := v.ring, poll := v.poll,
       ledger := w.ledger.(undone := w.ledger.undone + Since(s.unmaps, t.unmaps), freed := w.ledger.freed + Since(s.frees, t.frees)))
  }

  function Since<T>(before: seq<T>, after: seq<T>): seq<T> {
    if |before| <= |after| then after[|before|..] else []
  }

  lemma SinceThen<T>(a: seq<T>, b: seq<T>, c: seq<T>)
    requires a <= b <= c
    ensures Since(a, c) == Since(a, b) + Since(b, c)
  {
  }

  lemma ReclaimedOn(w: World, u: World, v: World, s: L.Totals, m: L.Totals, t: L.Totals)
    requires u == Reclaimed(w, u, s, m) && v == Reclaimed(u, v, m, t)
    requires s.unmaps <= m.unmaps <= t.unmaps && s.frees <= m.frees <= t.frees
    ensures v == Reclaimed(w, v, s, t)
  {
    hide Since;
    SinceThen(s.unmaps, m.unmaps, t.unmaps);
    SinceThen(s.frees, m.frees, t.frees);
    Associative(w.ledger.undone, Since(s.unmaps, m.unmaps), Since(m.unmaps, t.unmaps));
    Associative(w.ledger.freed, Since(s.frees, m.frees), Since(m.frees, t.frees));
  }

  lemma {:induction false} CallsGrow(s: L.Totals, n: nat)
    ensures s.unmaps <= L.PollLoop(s, n).unmaps && s.frees <= L.PollLoop(s, n).frees
    decreases n
  {
    if n > 0 && L.More(s.ring) {
      CallsGrow(L.PollNext(s), n - 1);
    }
  }

  lemma SlotTotals(w: World, s: L.Totals, n: nat)
    requires RingInv(w) && w.xmit.Idle? && W.Facing(w, n + 1) && SameTotals(w, s)
    ensures Enabled(w, PollSlot) && L.More(s.ring)
    ensures var v := Next(w, PollSlot);
      && RingInv(v) && W.Facing(v, n) && SameTotals(v, L.PollNext(s))
      && v == Reclaimed(w, v, s, L.PollNext(s)) && v.poll.limit == w.poll.limit
  {
    W.OneSlot(w, n);
    MoreIs(w.ring, w.past);
  }

  // The steps of a poll add up what its loop adds up.
  lemma {:induction false} SlotsPoll(w: World, s: L.Totals, n: nat) returns (v: World)
    requires RingInv(w) && w.xmit.Idle? && W.Facing(w, n) && SameTotals(w, s)
    ensures S.Reaches(w, W.Slots(n), v) && RingInv(v) && SameTotals(v, L.PollLoop(s, n))
    ensures v == Reclaimed(w, v, s, L.PollLoop(s, n)) && v.poll.limit == w.poll.limit
    decreases n
  {
    if n == 0 {
      L.PollStops(s, 0);
      v := w;
      hide RingInv, L.PollLoop;
    } else {
      SlotTotals(w, s, n - 1);
      L.PollOn(s, n);
      CallsGrow(L.PollNext(s), n - 1);
      hide RingInv, Next, Enabled, W.Facing, S.Reaches, W.Slots, L.PollNext, L.PollLoop, L.More, Reclaimed, Since;
      v := SlotsPoll(Next(w, PollSlot), L.PollNext(s), n - 1);
      ReclaimedOn(w, Next(w, PollSlot), v, s, L.PollNext(s), L.PollLoop(s, n));
      W.SlotsFirst(n);
      S.StepFirst(w, PollSlot, W.Slots(n - 1), v);
    }
  }

  /** mac_tx_poll, undisturbed, is a run of the machine: the ring, the bytes
      reported and the queue end up as the method's contract says. */
  lemma PollIsRun(w: World) returns (v: World)
    requires S.Inv(w) && w.xmit.Idle? && w.poll.Resting?
    ensures w.ring.Shaped()
    ensures var l := L.PollResult(w.ring);
      && S.Reaches(w, [PollBegin] + W.Slots(l.count) + [PollEnd], v)
      && l.count == Min(MAX_PROC, w.ring.hw - w.ring.dirty)
      && v.ring == l.ring && v.books == w.books.(completed := w.books.completed + l.bytes, reported := w.books.reported + l.packets)
      && v.ledger == w.ledger.(undone := w.ledger.undone + l.unmaps, freed := w.ledger.freed + l.frees)
      && v == w.(ring := v.ring, books := v.books, ledger := v.ledger, queue := v.queue)
      && v.queue == w.queue.(stopped := w.queue.stopped && (l.count == 0 || v.ring.Avail() <= MIN_FREE))
  {
    hide L.PollLoop, ReclaimN, S.Recorded, S.Counted, S.Balanced, G.Itemised, S.Controlled, Sound, Next, Enabled, S.Reaches, W.Slots;
    var s := L.Totals(w.ring, 0, 0, 0, [], []);
    W.Order(w);
    LoopReclaims(s, w.past, MAX_PROC);
    hide RingInv;
    var n := Min(MAX_PROC, w.ring.hw - w.ring.dirty);
    W.Begins(w, n);
    var b := Next(w, PollBegin);
    var e := SlotsPoll(b, s, n);
    ReclaimMoves(w.ring, n);
    W.CanEnd(e);
    v := Next(e, PollEnd);
    Finishes(e, s, n);
    S.Single(w, PollBegin);
    S.Single(e, PollEnd);
    S.ReachesThen(w, [PollBegin], b, W.Slots(n), e);
    S.ReachesThen(w, [PollBegin] + W.Slots(n), e, [PollEnd], v);
  }

  lemma {:induction false} ReclaimMoves(r: Ring, n: nat)
    requires r.Shaped()
    ensures var v := ReclaimN(r, n); v.dirty == r.dirty + n && v.hw == r.hw && v.cur == r.cur
    decreases n
  {
    if n > 0 {
      ReclaimMoves(ReclaimOne(r), n - 1);
    }
  }

  lemma {:induction false} NoBytes(s: L.Totals, n: nat)
    ensures n == 0 ==> L.PollLoop(s, n) == s
  {
  }

  lemma Finishes(e: World, s: L.Totals, n: nat)
    requires Enabled(e, PollEnd) && e.poll.Polling? && e.xmit.Idle? && e.poll.processed == n && s.bytes == 0 && s.packets == 0
    requires e.poll.bytes == L.PollLoop(s, n).bytes && e.poll.packets == L.PollLoop(s, n).packets
    ensures Next(e, PollEnd) == e.(poll := Resting,
                                   books := e.books.(completed := e.books.completed + e.poll.bytes, reported := e.books.reported + e.poll.packets),
                                   queue := e.queue.(stopped := e.queue.stopped && (n == 0 || e.ring.Avail() <= MIN_FREE)))
  {
    NoBytes(s, n);
  }

  // ---------------------------------------------------------------- sending

  // One write of the script, the device and the poll standing still.
  lemma WriteStep(w: World)
    requires RingInv(w) && w.xmit.Writing?
    ensures Enabled(w, Advance(false)) && RingInv(Next(w, Advance(false)))
    ensures var v := Next(w, Advance(false));
      && v.ring == w.ring.(desc := v.ring.desc)
      && if w.xmit.k + 1 < |Script(w.xmit.job)| then v == w.(ring := v.ring, xmit := w.xmit.(k := w.xmit.k + 1))
         else v == Sent(w, w.xmit.job, w.xmit.slots, v.ring.desc)
  {
    CanAlwaysWrite(w.xmit);
    hide Script, Put, Sound;
    RingStep(w, Advance(false));
  }

  // The world once `job` is published.
  function Sent(w: World, job: Job, slots: seq<Slot>, desc: seq<Desc>): World
    requires job.Valid()
  {
    w.(ring := w.ring.(desc := desc), xmit := Published(job),
       books := w.books.(mss := D.NextMss(job, w.books.mss), tag := D.NextTag(job, w.books.tag),
                         count := C.Counted(w.books.count, job.pkt.txPackets)),
       past := Publish(w.past, job, slots))
  }

  lemma {:induction false} WriteOut(w: World, n: nat) returns (actions: seq<Action>, v: World)
    requires RingInv(w) && w.xmit.Writing? && n == |Script(w.xmit.job)| - w.xmit.k
    ensures S.Reaches(w, actions, v) && RingInv(v)
    ensures w.xmit.job.Valid() && v == Sent(w, w.xmit.job, w.xmit.slots, v.ring.desc)
    decreases n
  {
    WriteStep(w);
    S.Single(w, Advance(false));
    var next := Next(w, Advance(false));
    hide Script, Encode, Next, Enabled, Sound;
    if n == 1 {
      actions, v := [Advance(false)], next;
    } else {
      var rest;
      rest, v := WriteOut(next, n - 1);
      S.ReachesThen(w, [Advance(false)], next, rest, v);
      actions := [Advance(false)] + rest;
    }
  }

  // mac_maybe_stop_tx_queue, undisturbed.
  function MaybeStop(q: Queue, r: Ring, count: nat): Queue { Stopping(q, count > r.Avail(), r.cur) }

  // The live index of ring entry `q`.
  function IndexOf(r: Ring, q: nat): nat { r.dirty + (q - r.dirty) % RING }

  lemma IndexOfIs(r: Ring, q: nat)
    requires q < RING
    ensures r.dirty <= IndexOf(r, q) < r.dirty + RING && IndexOf(r, q) % RING == q
  {
  }

  lemma SentEntry(r: Ring, p: Past, u: Ring, q: Past, job: Job, slots: seq<Slot>, i: nat)
    requires Sound(r, Idle, p) && Ready(job, slots) && job.Count() <= r.Avail()
    requires Sound(u, Published(job), q) && q == Publish(p, job, slots) && u == r.(desc := u.desc, data := u.data)
    requires r.dirty <= i < r.dirty + RING
    ensures u.D(i) == if r.cur <= i < r.cur + job.Count() then Encode(job)[i - r.cur] else r.D(i)
  {
    hide Script, Put;
    if i < r.cur {
      assert HandedAt(r, p, i) && HandedAt(u, q, i);
    } else if i < r.cur + job.Count() {
      assert HandedAt(u, q, i);
      assert Encode(job)[i - r.cur] == Encoded(job, i - r.cur);
    } else {
      assert ClearAt(r, i) && ClearAt(u, i);
    }
  }

  // The world once `job` has been sent, `x` being the step reached.
  function AfterSend(w: World, job: Job, slots: seq<Slot>, hold: bool, x: Xmit): World
    requires w.ring.Shaped() && job.Valid() && |slots| == job.Count() <= RING
  {
    var r := Ring(Place(w.ring.desc, w.ring.cur, Encode(job)), Place(w.ring.data, w.ring.cur, slots),
                  w.ring.cur + job.Count(), w.ring.dirty, w.ring.hw);
    w.(ring := r, xmit := x, queue := Handing(w.queue, hold, r.cur), past := Publish(w.past, job, slots),
       books := w.books.(mss := D.NextMss(job, w.books.mss), tag := D.NextTag(job, w.books.tag),
                         count := C.Counted(w.books.count, job.pkt.txPackets), queued := w.books.queued + job.pkt.txBytes),
       ledger := w.ledger.(mapped := w.ledger.mapped + MappingsOf(job, slots)))
  }

  // mac_xmit up to the check that ends it.
  lemma SendToCheck(w: World, job: Job, slots: seq<Slot>, estimate: nat, hold: bool) returns (actions: seq<Action>, v: World)
    requires RingInv(w) && Enabled(w, Offer(job, slots, estimate)) && estimate <= w.ring.Avail()
    ensures S.Reaches(w, actions, v) && RingInv(v) && v == AfterSend(w, job, slots, hold, Checking)
  {
    hide Script, Put, Encode, Sound, S.Reaches;
    var offer := Offer(job, slots, estimate);
    RingStep(w, offer);
    S.Single(w, offer);
    var o := Next(w, offer);
    var writes, u := WriteOut(o, |Script(job)|);
    SentRing(w, o, u, job, slots);
    var rest;
    rest, v := Announced(u, job, hold);
    S.ReachesThen(w, [offer], o, writes, u);
    S.ReachesThen(w, [offer] + writes, u, rest, v);
    actions := [offer] + writes + rest;
  }

  lemma SentRing(w: World, o: World, u: World, job: Job, slots: seq<Slot>)
    requires RingInv(w) && w.xmit.Idle? && Ready(job, slots) && job.Count() <= w.ring.Avail()
    requires o == w.(ring := w.ring.(data := Place(w.ring.data, w.ring.cur, slots)), xmit := Writing(job, slots, 0),
                     books := w.books.(queued := w.books.queued + job.pkt.txBytes),
                     ledger := w.ledger.(mapped := w.ledger.mapped + MappingsOf(job, slots)))
    requires RingInv(u) && u == Sent(o, job, slots, u.ring.desc)
    ensures w.ring.Shaped() && u.ring.desc == Place(w.ring.desc, w.ring.cur, Encode(job))
  {
    hide Script, Put, Encode, Sound;
    Fields(w.ring, w.xmit, w.past);
    Fields(u.ring, u.xmit, u.past);
    var placed := Place(w.ring.desc, w.ring.cur, Encode(job));
    forall q | 0 <= q < RING ensures u.ring.desc[q] == placed[q] {
      IndexOfIs(w.ring, q);
      var i := IndexOf(w.ring, q);
      SentEntry(w.ring, w.past, u.ring, u.past, job, slots, i);
      PlaceAt(w.ring.desc, w.ring.cur, Encode(job), w.ring.dirty, i);
    }
  }

  // From the last write to the check.
  lemma Announced(u: World, job: Job, hold: bool) returns (actions: seq<Action>, v: World)
    requires RingInv(u) && u.xmit == Published(job) && u.ring.Shaped() && job.Valid()
    ensures S.Reaches(u, actions, v) && RingInv(v)
    ensures var r := u.ring.(cur := u.ring.cur + job.Count());
      v == u.(ring := r, xmit := Checking, queue := Handing(u.queue, hold, r.cur))
  {
    hide Sound, S.Reaches;
    var a := Advance(hold);
    RingStep(u, a);
    S.Single(u, a);
    var m := Next(u, a);
    Fields(m.ring, m.xmit, m.past);
    RingStep(m, a);
    S.Single(m, a);
    v := Next(m, a);
    S.ReachesThen(u, [a], m, [a], v);
    actions := [a] + [a];
  }

  // The check, and the stop if there has to be one.
  lemma ChecksSpace(d: World) returns (actions: seq<Action>, v: World)
    requires RingInv(d) && d.xmit.Checking?
    ensures S.Reaches(d, actions, v) && RingInv(v)
    ensures v == d.(xmit := Idle, missed := d.missed && MAX_DESC_NR <= d.ring.Avail(),
                    queue := MaybeStop(d.queue, d.ring, MAX_DESC_NR))
  {
    hide Sound, S.Reaches;
    var a := Advance(false);
    Fields(d.ring, d.xmit, d.past);
    RingStep(d, a);
    S.Single(d, a);
    actions, v := [a], Next(d, a);
    if v.xmit.Halting? {
      RingStep(v, a);
      S.Single(v, a);
      S.ReachesThen(d, [a], v, [a], Next(v, a));
      actions, v := [a] + [a], Next(v, a);
    }
  }

  /** mac_xmit, undisturbed, is a run of the machine: the packet's descriptors
      and slots are in place, the index moved, the doorbell rung or held back,
      the queue stopped if the next packet might not fit. */
  lemma SendIsRun(w: World, job: Job, slots: seq<Slot>, estimate: nat, hold: bool) returns (actions: seq<Action>, v: World)
    requires RingInv(w) && Enabled(w, Offer(job, slots, estimate)) && estimate <= w.ring.Avail()
    ensures S.Reaches(w, actions, v) && RingInv(v)
    ensures var d := AfterSend(w, job, slots, hold, Idle);
      v == d.(missed := w.missed && MAX_DESC_NR <= d.ring.Avail(), queue := MaybeStop(d.queue, d.ring, MAX_DESC_NR))
  {
    hide Handing, Stopping, Sound, S.Reaches, Enabled, Encode, Place;
    var sent, d := SendToCheck(w, job, slots, estimate, hold);
    var rest;
    rest, v := ChecksSpace(d);
    S.ReachesThen(w, sent, d, rest, v);
    actions := sent + rest;
  }

  lemma SameDist(q: nat, cur: nat)
    requires q < RING
    ensures (q - cur) % RING == M.Dist(q, cur % WORD32)
  {
    R.AtDist(cur, q);
    M.DistIs(cur, M.Dist(q, cur % WORD32), q);
  }

  lemma PlaceRun<T>(a: seq<T>, b: seq<T>, cur: nat, n: nat)
    requires |a| == RING == |b| && n <= RING && M.SameOutside(a, b, cur % WORD32, n)
    ensures Place(a, cur, R.Block(b, cur % WORD32, n)) == b
  {
    var placed := Place(a, cur, R.Block(b, cur % WORD32, n));
    forall q | 0 <= q < RING ensures placed[q] == b[q] {
      SameDist(q, cur);
      M.DistIs(cur % WORD32, M.Dist(q, cur % WORD32), q);
    }
  }

  // What the last slots of a packet sent record.
  lemma KeptLast(data: seq<Slot>, base: nat, ps: seq<Piece>, answers: M.Answers, id: nat, packets: nat, bytes: nat)
    requires |data| == RING && 0 < |ps| && M.Answered(answers, |ps|)
    ensures var last := M.Kept(data, base, ps, answers, id, packets, bytes)[(base + |ps| - 1) % RING];
      last.bytes == bytes && last.packets == packets
  {
  }

  lemma KeptPiece(data: seq<Slot>, base: nat, ps: seq<Piece>, answers: M.Answers, id: nat, packets: nat, bytes: nat, k: nat)
    requires |data| == RING && k < |ps| <= RING && M.Answered(answers, |ps|)
    ensures var s := M.Kept(data, base, ps, answers, id, packets, bytes)[(base + k) % RING];
      MappingIn(s) == M.MappingOf(ps[k], answers[k].value) && (s.skb.Some? <==> k == |ps| - 1)
  {
    M.LaidPiece(data, base, ps, answers, id, k);
    hide M.Laid;
  }

  lemma KeptContext(skb: Skb, answers: M.Answers, data: seq<Slot>, start: nat, mss: nat, tag: nat)
    requires skb.WellFormed() && |data| == RING && 0 < |Pieces(skb)| && M.Answered(answers, |Pieces(skb)|)
    requires M.Context(skb, mss, tag) == 1 && Used(skb, mss, tag) <= RING
    ensures M.KeptOf(skb, answers, data, start, mss, tag)[start % RING] == data[start % RING]
  {
    var ps := Pieces(skb);
    hide Pieces, M.Lay;
    M.LayAt(data, start + 1, ps, answers, |ps|, start % RING);
    M.DistOf(start, 0);
    M.DistNext(start % RING, start);
    M.DistIs(start, |ps|, start % RING);
  }

  lemma KeptReady(skb: Skb, answers: M.Answers, data: seq<Slot>, start: nat, mss: nat, tag: nat, job: Job)
    requires skb.WellFormed() && skb.Len() > 0 && |data| == RING && 0 < |Pieces(skb)| && M.Answered(answers, |Pieces(skb)|)
    requires Used(skb, mss, tag) <= RING && Vacant(data[start % RING])
    requires job.Valid() && job.pkt == M.PacketOf(skb, answers) && D.Decided(job, mss, tag)
    ensures job.Count() == Used(skb, mss, tag)
    ensures var slots := R.Block(M.KeptOf(skb, answers, data, start, mss, tag), start, job.Count());
      Ready(job, slots) && MappingsOf(job, slots) == M.Mapped(Pieces(skb), answers, |Pieces(skb)|)
  {
    hide Pieces, M.KeptOf, M.PacketOf, PrepTso, R.Block, SlotOf, M.Mapped;
    M.ContextAgrees(skb, answers, mss, tag);
    PacketIs(skb, answers, job, mss, tag);
    KeptSlots(skb, answers, data, start, mss, tag, job);
    KeptEnds(skb, answers, data, start, mss, tag, job.Count());
  }

  lemma KeptSlots(skb: Skb, answers: M.Answers, data: seq<Slot>, start: nat, mss: nat, tag: nat, job: Job)
    requires skb.WellFormed() && |data| == RING && 0 < |Pieces(skb)| && M.Answered(answers, |Pieces(skb)|)
    requires job.Count() == Used(skb, mss, tag) <= RING && Vacant(data[start % RING])
    requires job.Valid() && job.Ctx() == M.Context(skb, mss, tag) && M.Carries(job.pkt, Pieces(skb), answers)
    ensures var slots := R.Block(M.KeptOf(skb, answers, data, start, mss, tag), start, job.Count());
      && (forall k: nat :: k < |job.pkt.bufs| ==> SlotOf(job, slots, k))
      && (forall i :: 0 <= i < |slots| ==> (slots[i].skb.Some? <==> i == |slots| - 1))
      && MappingsOf(job, slots) == M.Mapped(Pieces(skb), answers, |Pieces(skb)|)
  {
    var ps, slots := Pieces(skb), R.Block(M.KeptOf(skb, answers, data, start, mss, tag), start, job.Count());
    hide Pieces, M.KeptOf, M.Mapped, R.Block;
    forall k: nat | k < |ps| ensures SlotOf(job, slots, k) && MappingIn(slots[job.Ctx() + k]) == M.Mapped(ps, answers, |ps|)[k] {
      KeptSlot(skb, answers, data, start, mss, tag, k, job.Count());
      M.MappedAt(ps, answers, |ps|, k);
    }
    hide SlotOf;
    forall i: nat | i < |slots| ensures slots[i].skb.Some? <==> i == |slots| - 1 {
      KeptPacket(skb, answers, data, start, mss, tag, i, job.Count());
    }
  }

  lemma KeptPacket(skb: Skb, answers: M.Answers, data: seq<Slot>, start: nat, mss: nat, tag: nat, i: nat, n: nat)
    requires skb.WellFormed() && |data| == RING && 0 < |Pieces(skb)| && M.Answered(answers, |Pieces(skb)|)
    requires i < n == Used(skb, mss, tag) <= RING && Vacant(data[start % RING])
    ensures R.Block(M.KeptOf(skb, answers, data, start, mss, tag), start, n)[i].skb.Some? <==> i == n - 1
  {
    hide Pieces, M.KeptOf, R.Block;
    if i < M.Context(skb, mss, tag) {
      KeptEnds(skb, answers, data, start, mss, tag, n);
    } else {
      KeptSlot(skb, answers, data, start, mss, tag, i - M.Context(skb, mss, tag), n);
    }
  }

  lemma KeptSlot(skb: Skb, answers: M.Answers, data: seq<Slot>, start: nat, mss: nat, tag: nat, k: nat, n: nat)
    requires skb.WellFormed() && |data| == RING && k < |Pieces(skb)| && M.Answered(answers, |Pieces(skb)|)
    requires n == Used(skb, mss, tag) <= RING
    ensures var s := R.Block(M.KeptOf(skb, answers, data, start, mss, tag), start, n)[M.Context(skb, mss, tag) + k];
      && MappingIn(s) == M.MappingOf(Pieces(skb)[k], answers[k].value) && s.dmaLen > 0
      && (s.skb.Some? <==> k == |Pieces(skb)| - 1)
  {
    var t := PrepTso(skb);
    KeptPiece(data, start + M.Context(skb, mss, tag), Pieces(skb), answers, skb.id, t.txPackets, t.txBytes, k);
    M.PiecesNonEmpty(skb);
    hide Pieces, M.Kept, M.Lay, Split, FragPieces;
  }

  lemma KeptEnds(skb: Skb, answers: M.Answers, data: seq<Slot>, start: nat, mss: nat, tag: nat, n: nat)
    requires skb.WellFormed() && |data| == RING && 0 < |Pieces(skb)| && M.Answered(answers, |Pieces(skb)|)
    requires n == Used(skb, mss, tag) <= RING && Vacant(data[start % RING])
    ensures var slots := R.Block(M.KeptOf(skb, answers, data, start, mss, tag), start, n);
      && slots[n - 1].bytes == PrepTso(skb).txBytes && slots[n - 1].packets == PrepTso(skb).txPackets
      && (M.Context(skb, mss, tag) == 1 ==> Vacant(slots[0]))
  {
    var t := PrepTso(skb);
    KeptLast(data, start + M.Context(skb, mss, tag), Pieces(skb), answers, skb.id, t.txPackets, t.txBytes);
    if M.Context(skb, mss, tag) == 1 {
      KeptContext(skb, answers, data, start, mss, tag);
    }
    hide Pieces, M.Kept, M.Lay, Split, FragPieces;
  }

  lemma JobOf(mss: nat, tag: nat, coalesce: nat, frames: nat, p: Packet, block: seq<Desc>) returns (job: Job)
    requires R.HandsOver(mss, tag, coalesce, frames, p, block)
    ensures job.Valid() && job.pkt == p && D.Decided(job, mss, tag) && block == Encode(job)
    ensures job.interrupt == C.Interrupts(coalesce, p.txPackets, frames)
  {
    job :| job.Valid() && job.pkt == p && D.Decided(job, mss, tag)
      && job.interrupt == C.Interrupts(coalesce, p.txPackets, frames) && block == Encode(job);
  }

  // The class's 32-bit doorbell.
  function Wrapped(q: Queue): Queue { q.(doorbell := q.doorbell % WORD32) }

  /** A packet sent, as the contract of the method for mac_xmit has it. */
  ghost predicate SentFrom(w: World, skb: Skb, answers: M.Answers, coalesce: nat, desc: seq<Desc>, data: seq<Slot>)
    requires skb.WellFormed() && w.ring.Shaped()
  {
    var start, n := w.ring.cur % WORD32, Used(skb, w.books.mss, w.books.tag);
    && 0 < |Pieces(skb)| && M.Answered(answers, |Pieces(skb)|) && |desc| == RING
    && R.HandsOver(w.books.mss, w.books.tag, coalesce, w.frames, M.PacketOf(skb, answers), R.Block(desc, start, n))
    && coalesce == C.Counted(w.books.count, PrepTso(skb).txPackets)
    && M.SameOutside(w.ring.desc, desc, start, n)
    && data == M.KeptOf(skb, answers, w.ring.data, start, w.books.mss, w.books.tag)
  }

  /** It is one run of the machine, from any state its ring may be in: ring,
      queue and books all agree. */
  lemma TransmitIsRun(w: World, skb: Skb, answers: M.Answers, coalesce: nat, hold: bool, desc: seq<Desc>, data: seq<Slot>)
    returns (actions: seq<Action>, v: World)
    requires S.Inv(w) && w.xmit.Idle? && !w.queue.stopped && skb.WellFormed() && skb.Len() > 0 && w.ring.Shaped()
    requires SentFrom(w, skb, answers, coalesce, desc, data)
    ensures S.Reaches(w, actions, v) && S.Inv(v) && v.xmit.Idle? && v.poll == w.poll && v.frames == w.frames
    ensures v.ring == Ring(desc, data, w.ring.cur + Used(skb, w.books.mss, w.books.tag), w.ring.dirty, w.ring.hw)
    ensures v.queue == MaybeStop(Handing(w.queue, hold, v.ring.cur), v.ring, MAX_DESC_NR)
    ensures v.books == w.books.(mss := if skb.Tso() then skb.gsoSize else w.books.mss,
                                tag := if skb.tag.Some? then skb.tag.value else w.books.tag,
                                count := coalesce, queued := w.books.queued + PrepTso(skb).txBytes)
    ensures v.ledger == w.ledger.(mapped := w.ledger.mapped + M.Mapped(Pieces(skb), answers, |Pieces(skb)|))
  {
    hide Script, Put, Encode, RingInv, S.Inv, S.Reaches, Enabled, Ready, Place, D.Decided, D.NextMss, D.NextTag, Metered;
    hide M.KeptOf, R.Block, M.SameOutside, M.PacketOf, R.HandsOver, Estimate, Pieces, Used, Handing, MaybeStop, M.Mapped, MappingsOf;
    var start, mss, tag := w.ring.cur % WORD32, w.books.mss, w.books.tag;
    var n := Used(skb, mss, tag);
    var job := JobOf(mss, tag, coalesce, w.frames, M.PacketOf(skb, answers), R.Block(desc, start, n));
    RoomFor(w, skb);
    KeptReady(skb, answers, w.ring.data, start, mss, tag, job);
    var slots := R.Block(data, start, n);
    PacketIs(skb, answers, job, mss, tag);
    Offered(w, skb, job, slots);
    actions, v := SendIsRun(w, job, slots, Estimate(skb, mss, tag), hold);
    S.InvRun(w, actions, v);
    PlaceRun(w.ring.desc, desc, w.ring.cur, n);
    M.KeptOfOutside(skb, answers, w.ring.data, start, mss, tag);
    PlaceRun(w.ring.data, data, w.ring.cur, n);
  }

  // The packet's counts, and what it leaves told to the device.
  lemma PacketIs(skb: Skb, answers: M.Answers, job: Job, mss: nat, tag: nat)
    requires skb.WellFormed() && M.Answered(answers, |Pieces(skb)|) && job.pkt == M.PacketOf(skb, answers) && D.Decided(job, mss, tag)
    ensures job.pkt.txBytes == PrepTso(skb).txBytes && job.pkt.txPackets == PrepTso(skb).txPackets
    ensures 0 < job.pkt.txPackets < WORD32
    ensures D.NextMss(job, mss) == if skb.Tso() then skb.gsoSize else mss
    ensures D.NextTag(job, tag) == if skb.tag.Some? then skb.tag.value else tag
  {
  }

  // The ring has room for any packet, from a vacant slot on.
  lemma RoomFor(w: World, skb: Skb)
    requires S.Inv(w) && w.xmit.Idle? && !w.queue.stopped && skb.WellFormed()
    ensures w.ring.Shaped() && Used(skb, w.books.mss, w.books.tag) <= w.ring.Avail() <= RING
    ensures Estimate(skb, w.books.mss, w.books.tag) <= w.ring.Avail() && Vacant(w.ring.data[w.ring.cur % WORD32 % RING])
  {
    hide Estimate, Used, Script, Pieces;
    EstimateBound(skb, w.books.mss, w.books.tag);
    UsedWithinEstimate(skb, w.books.mss, w.books.tag);
    WordRing(w.ring.cur);
    assert ClearAt(w.ring, w.ring.cur);
  }

  lemma Offered(w: World, skb: Skb, job: Job, slots: seq<Slot>)
    requires S.Inv(w) && w.xmit.Idle? && !w.queue.stopped && skb.WellFormed() && 0 < job.pkt.txPackets < WORD32
    requires Ready(job, slots) && D.Decided(job, w.books.mss, w.books.tag) && job.Count() == Used(skb, w.books.mss, w.books.tag)
    requires job.interrupt == C.Interrupts(C.Counted(w.books.count, job.pkt.txPackets), job.pkt.txPackets, w.frames)
    ensures var estimate := Estimate(skb, w.books.mss, w.books.tag);
      RingInv(w) && Enabled(w, Offer(job, slots, estimate)) && estimate <= w.ring.Avail() && job.Count() <= RING
  {
    hide Estimate, Used, Script, Pieces;
    EstimateBound(skb, w.books.mss, w.books.tag);
    UsedWithinEstimate(skb, w.books.mss, w.books.tag);
  }

  // ------------------------------------------------------------ the methods

  /** The ring in memory is the machine's. */
  ghost predicate Mirrors(ring: R.TxRing, w: World)
    reads ring, ring.desc, ring.data
  {
    && ring.Clean() && ring.R() == w.ring && ring.Q() == Wrapped(w.queue) && ring.frames == w.frames
    && ring.mss == w.books.mss && ring.tag == w.books.tag && ring.coalesce == w.books.count
    && ring.queued == w.books.queued && ring.completed == w.books.completed && ring.reported == w.books.reported
    && Tallies(ring, w.ledger)
  }

  // The calls made are those in the machine's ledger.
  ghost predicate Tallies(ring: R.TxRing, l: Ledger)
    reads ring`maps, ring`unmaps, ring`freed
  {
    && multiset(ring.maps) == multiset(l.mapped) + multiset(l.refused)
    && multiset(ring.unmaps) == multiset(l.undone) + multiset(l.back)
    && multiset(ring.freed) == multiset(l.freed) + multiset(l.dropped)
  }

  lemma Appended<T>(a: seq<T>, b: seq<T>, x: seq<T>, y: seq<T>)
    requires multiset(a) == multiset(x) + multiset(y)
    ensures multiset(a + b) == multiset(x + b) + multiset(y) == multiset(x) + multiset(y + b)
  {
    assert multiset(a + b) == multiset(a) + multiset(b);
    assert multiset(x + b) == multiset(x) + multiset(b);
    assert multiset(y + b) == multiset(y) + multiset(b);
  }

  /** A new ring mirrors the machine's start. */
  method Begin(frames: nat) returns (ring: R.TxRing)
    ensures fresh(ring) && fresh(ring.desc) && fresh(ring.data)
    ensures Mirrors(ring, Start(frames)) && S.Inv(Start(frames))
  {
    ring := new R.TxRing(frames);
    S.InvStart(frames);
    assert ring.desc[..] == Start(frames).ring.desc;
    assert ring.data[..] == Start(frames).ring.data;
  }

  /** So for the ring in memory: every DMA mapping made has been undone once, is
      outstanding, or was made at bus address zero for a buffer that is gone. */
  lemma CallsBalance(ring: R.TxRing, w: World)
    requires Mirrors(ring, w) && S.Reachable(w)
    ensures w.ring.Shaped() && w.ring.dirty <= Tail(w.ring, w.xmit) == |w.past.sent| == |w.past.kept|
    ensures multiset(ring.maps) == multiset(ring.unmaps) + multiset(G.Held(w)) + multiset(AtZero(G.Gone(w)))
  {
    hide R.TxRing.Clean, S.Reachable, G.Held, G.Gone, AtZero;
    S.MappingsConserved(w);
  }

  lemma SentHere(ring: R.TxRing, b: R.Before, w: World, skb: Skb, answers: M.Answers)
    requires skb.WellFormed() && ring.SentAs(b, skb, answers) && w.ring.Shaped()
    requires b.desc == w.ring.desc && b.data == w.ring.data && b.cur == w.ring.cur % WORD32
    requires b.mss == w.books.mss && b.tag == w.books.tag && b.coalesce == w.books.count && ring.frames == w.frames
    ensures SentFrom(w, skb, answers, ring.coalesce, ring.desc[..], ring.data[..])
    ensures ring.mss == (if skb.Tso() then skb.gsoSize else w.books.mss)
    ensures ring.tag == (if skb.tag.Some? then skb.tag.value else w.books.tag)
    ensures ring.maps == b.maps + M.Mapped(Pieces(skb), answers, |Pieces(skb)|) && ring.unmaps == b.unmaps
  {
    hide R.HandsOver, M.KeptOf, M.SameOutside, R.Block, Pieces, Used;
  }

  lemma WrappedQueue(q: Queue, hold: bool, cur: nat, busy: bool)
    ensures Wrapped(Stopping(Handing(q, hold, cur), busy, cur)) ==
            Stopping(Handing(Wrapped(q), hold, cur % WORD32), busy, cur % WORD32)
  {
  }

  // The ring before the call was the machine's.
  ghost predicate WasLike(b: R.Before, w: World) {
    && b.desc == w.ring.desc && b.data == w.ring.data && b.head == w.ring.cur && b.cur == w.ring.cur % WORD32
    && b.mss == w.books.mss && b.tag == w.books.tag && b.coalesce == w.books.count && b.queued == w.books.queued
    && multiset(b.maps) == multiset(w.ledger.mapped) + multiset(w.ledger.refused)
    && multiset(b.unmaps) == multiset(w.ledger.undone) + multiset(w.ledger.back)
  }

  lemma SentMirrors(ring: R.TxRing, b: R.Before, w: World, skb: Skb, answers: M.Answers, hold: bool)
    returns (actions: seq<Action>, v: World)
    requires S.Inv(w) && w.xmit.Idle? && !w.queue.stopped && skb.WellFormed() && skb.Len() > 0 && w.ring.Shaped()
    requires WasLike(b, w) && ring.Clean() && ring.SentAs(b, skb, answers) && ring.frames == w.frames
    requires multiset(ring.freed) == multiset(w.ledger.freed) + multiset(w.ledger.dropped)
    requires ring.tail == w.ring.dirty && ring.hw == w.ring.hw && ring.completed == w.books.completed && ring.reported == w.books.reported
    requires ring.Q() == Stopping(Handing(Wrapped(w.queue), hold, ring.cur), MAX_DESC_NR > RING - (ring.head - ring.tail), ring.cur)
    ensures S.Reaches(w, actions, v) && S.Inv(v) && v.xmit.Idle? && Mirrors(ring, v) && actions != []
  {
    hide S.Inv, S.Reaches, M.KeptOf, M.PacketOf, M.Mapped, R.HandsOver, M.SameOutside, R.Block, Pieces, Used, Handing, Stopping, Clear;
    SentHere(ring, b, w, skb, answers);
    actions, v := TransmitIsRun(w, skb, answers, ring.coalesce, hold, ring.desc[..], ring.data[..]);
    WrappedQueue(w.queue, hold, v.ring.cur, MAX_DESC_NR > v.ring.Avail());
    StaysPut(w, actions, v);
    Appended(b.maps, M.Mapped(Pieces(skb), answers, |Pieces(skb)|), w.ledger.mapped, w.ledger.refused);
  }

  lemma StaysPut(w: World, actions: seq<Action>, v: World)
    requires S.Reaches(w, actions, v)
    ensures actions == [] ==> v == w
  {
  }

  // The machine's step for a packet that could not be mapped.
  function Refusal(w: World, skb: Skb, answers: M.Answers): Action
    requires skb.WellFormed() && |Pieces(skb)| <= |answers|
  {
    Refuse(skb.id, M.Context(skb, w.books.mss, w.books.tag),
           M.Mapped(Pieces(skb), answers, M.Mappable(Pieces(skb), answers, 0)))
  }

  lemma PlaceWraps<T>(data: seq<T>, cur: nat, ctx: nat, slots: seq<T>)
    requires |data| == RING && |slots| <= RING
    ensures Place(data, cur % WORD32 + ctx, slots) == Place(data, cur + ctx, slots)
  {
    var a, b := Place(data, cur % WORD32 + ctx, slots), Place(data, cur + ctx, slots);
    forall q | 0 <= q < RING ensures a[q] == b[q] {
      SameSteps(q - ctx, cur);
    }
  }

  lemma SameSteps(x: int, cur: nat)
    ensures (x - cur % WORD32) % RING == (x - cur) % RING
  {
    WordRing(cur);
    var k := cur / WORD32;
    assert cur == k * WORD32 + cur % WORD32;
    assert x - cur % WORD32 == (x - cur) + (k * 1048576) * RING;
  }

  lemma RefusalMirrors(ring: R.TxRing, b: R.Before, w: World, skb: Skb, answers: M.Answers) returns (v: World)
    requires S.Inv(w) && w.xmit.Idle? && !w.queue.stopped && skb.WellFormed() && w.ring.Shaped() && |Pieces(skb)| <= |answers|
    requires WasLike(b, w) && ring.Clean() && ring.NotSent(b) && ring.frames == w.frames
    requires ring.GivenUp(b, skb, answers) && !ring.LeftBehind(skb, answers)
    requires multiset(ring.freed) == multiset(w.ledger.freed) + multiset(w.ledger.dropped + [skb.id])
    requires ring.tail == w.ring.dirty && ring.hw == w.ring.hw && ring.completed == w.books.completed
    requires ring.reported == w.books.reported && ring.Q() == Wrapped(w.queue)
    ensures S.Reaches(w, [Refusal(w, skb, answers)], v) && S.Inv(v) && v.xmit.Idle? && Mirrors(ring, v)
  {
    hide RingInv, S.Recorded, S.Counted, S.Balanced, G.Itemised, S.Reaches, Pieces, M.Mapped, M.Mappable, Live, Leftovers, Place, Clear;
    var m, ctx := M.Mappable(Pieces(skb), answers, 0), M.Context(skb, w.books.mss, w.books.tag);
    var made := M.Mapped(Pieces(skb), answers, m);
    RoomFor(w, skb);
    NotSkipped(w.ring.data, b.cur, ctx, Pieces(skb), answers, m);
    PlaceWraps(w.ring.data, w.ring.cur, ctx, Leftovers(made));
    Appended(b.maps, made, w.ledger.mapped, w.ledger.refused);
    Appended(b.unmaps, Live(made), w.ledger.undone, w.ledger.back);
    var a := Refusal(w, skb, answers);
    FewEnough(skb, w);
    S.InvStep(w, a);
    S.Single(w, a);
    v := Next(w, a);
  }

  lemma FewEnough(skb: Skb, w: World)
    requires skb.WellFormed()
    ensures M.Context(skb, w.books.mss, w.books.tag) + |Pieces(skb)| <= MAX_DESC_NR
  {
    hide Estimate, Pieces;
    EstimateBound(skb, w.books.mss, w.books.tag);
    UsedWithinEstimate(skb, w.books.mss, w.books.tag);
  }

  lemma NotSkipped(data: seq<Slot>, start: nat, ctx: nat, ps: seq<Piece>, answers: M.Answers, m: nat)
    requires |data| == RING && m <= |ps| && m <= RING && M.Answered(answers, m) && (m > 0 ==> !M.Skipped(start, ctx, m))
    ensures M.AfterRollback(data, start, ctx, ps, answers, m) == Place(data, start + ctx, Leftovers(M.Mapped(ps, answers, m)))
    ensures M.UndoneBy(start, ctx, ps, answers, m) == Live(M.Mapped(ps, answers, m))
  {
  }

  // A packet turned away changes nothing but what has been freed.
  lemma TurnedAway(ring: R.TxRing, w: World, id: nat) returns (v: World)
    requires S.Inv(w) && w.xmit.Idle? && !w.queue.stopped && ring.frames == w.frames
    requires multiset(ring.freed) == multiset(w.ledger.freed) + multiset(w.ledger.dropped + [id])
    requires multiset(ring.maps) == multiset(w.ledger.mapped) + multiset(w.ledger.refused)
    requires multiset(ring.unmaps) == multiset(w.ledger.undone) + multiset(w.ledger.back)
    ensures S.Reaches(w, [TurnAway(id)], v) && S.Inv(v) && v == w.(ledger := v.ledger) && Tallies(ring, v.ledger)
  {
    hide RingInv, S.Recorded, S.Counted, S.Balanced, G.Itemised, S.Reaches;
    assert w.ring.Shaped() by { W.Order(w); }
    S.InvStep(w, TurnAway(id));
    S.Single(w, TurnAway(id));
    v := Next(w, TurnAway(id));
  }

  /** mac_xmit on a ring in any state the machine can be in, with the queue
      running, is a run of the machine to another such state: a packet sent, one
      whose mapping failed and was rolled back, one turned away, or, with the
      link down, nothing. Only a rollback that was skipped leads out of it. It
      never finds the ring busy. */
  method Send(ring: R.TxRing, ghost w: World, skb: Skb, linkUp: bool, writable: bool, answers: M.Answers, hold: bool)
    returns (r: R.Verdict, ghost actions: seq<Action>, ghost v: World)
    requires Mirrors(ring, w) && S.Inv(w) && w.xmit.Idle? && !w.queue.stopped
    requires skb.WellFormed() && |Pieces(skb)| <= |answers|
    modifies ring, ring.desc, ring.data
    ensures S.Reaches(w, actions, v) && S.Inv(v) && v.xmit.Idle? && r != R.Busy
    ensures Mirrors(ring, v) || (r == R.Unmappable && ring.LeftBehind(skb, answers))
    ensures r == R.LinkDown ==> actions == []
    ensures r == R.Empty || r == R.NotWritable ==> actions == [TurnAway(skb.id)]
    ensures r == R.Unmappable && !ring.LeftBehind(skb, answers) ==> actions == [Refusal(w, skb, answers)]
    ensures r == R.Sent ==> actions != []
  {
    hide S.Inv, S.Reaches, M.KeptOf, M.PacketOf, M.SameOutside, Pieces, Used, Estimate, M.Mappable, Handing, Stopping, PrepTso, Clear;
    RoomFor(w, skb);
    ghost var b := ring.Snap();
    Appended(ring.freed, [skb.id], w.ledger.freed, w.ledger.dropped);
    r := ring.Transmit(skb, linkUp, writable, answers, hold);
    hide R.TxRing.SentAs, R.TxRing.GivenUp, R.TxRing.LeftBehind;
    actions, v := [], w;
    W.Stays(w);
    if r == R.Sent {
      actions, v := SentMirrors(ring, b, w, skb, answers, hold);
    } else if r == R.Empty || r == R.NotWritable {
      v := TurnedAway(ring, w, skb.id);
      actions := [TurnAway(skb.id)];
    } else if r == R.Unmappable && !ring.LeftBehind(skb, answers) {
      v := RefusalMirrors(ring, b, w, skb, answers);
      actions := [Refusal(w, skb, answers)];
    }
  }

  /** mac_tx_poll likewise: the mappings undone and the packets freed are those
      the machine undoes and frees. */
  method Poll(ring: R.TxRing, ghost w: World) returns (processed: nat, ghost v: World)
    requires Mirrors(ring, w) && S.Inv(w) && w.xmit.Idle? && w.poll.Resting?
    modifies ring`dirty, ring`tail, ring`completed, ring`reported, ring`stopped, ring`unmaps, ring`freed, ring.desc, ring.data
    ensures S.Reaches(w, [PollBegin] + W.Slots(processed) + [PollEnd], v) && S.Inv(v) && Mirrors(ring, v)
    ensures processed == L.PollResult(w.ring).count
    ensures old(ring.unmaps) <= ring.unmaps && v.ledger.undone == w.ledger.undone + ring.unmaps[|old(ring.unmaps)|..]
    ensures old(ring.freed) <= ring.freed && v.ledger.freed == w.ledger.freed + ring.freed[|old(ring.freed)|..]
  {
    hide S.Inv, S.Reaches, L.PollResult, Clear;
    v := PollIsRun(w);
    Appended(ring.unmaps, L.PollResult(w.ring).unmaps, w.ledger.undone, w.ledger.back);
    Appended(ring.freed, L.PollResult(w.ring).frees, w.ledger.freed, w.ledger.dropped);
    processed := ring.TxPoll();
    S.InvRun(w, [PollBegin] + W.Slots(processed) + [PollEnd], v);
  }
}
