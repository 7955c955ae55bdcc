/** One transmit ring of the driver, updated in place: mapping a packet with
    its rollback (`mac_map_tx_skb`), filling descriptors (`mac_dev_xmit`),
    reclaiming them (`mac_tx_poll`), and `mac_xmit` as a whole. Indices are
    32-bit and wrap, as in the driver. */
module TxRing {
  import opened Common
  import opened TxMapping
  import opened TxPacket
  import opened TxReclaim
  import opened TxSlots
  import opened TxWire
  import P = TxProtocol
  import D = TxDevice
  import C = TxCoalesce

  // ------------------------------------------------------ 32-bit indices

  // mac_tx_avail_desc, in 32-bit arithmetic.
  function Avail32(cur: nat, dirty: nat): int {
    (RING - (cur - dirty) % WORD32) % WORD32
  }

  /** While the window is no wider than the ring, the wrapped indices compare
      and subtract like the unwrapped ones. */
  lemma FreeRunning(head: nat, tail: nat)
    requires tail <= head <= tail + RING
    ensures Avail32(head % WORD32, tail % WORD32) == RING - (head - tail)
    ensures head % WORD32 == tail % WORD32 <==> head == tail
  {
  }

  lemma HeadWraps(head: nat, n: nat)
    ensures (head % WORD32 + n) % WORD32 == (head + n) % WORD32
  {
  }

  lemma AheadOf(cur: nat, j: nat)
    ensures (cur % WORD32 + j) % RING == (cur + j) % RING
  {
    WordRing(cur);
  }

  // The distance of a live index from a wrapped one that lies behind it.
  lemma DistLive(cur: nat, i: nat)
    requires cur <= i < cur + RING
    ensures Dist(i % RING, cur % WORD32) == i - cur
  {
    AheadOf(cur, i - cur);
    DistOf(cur % WORD32, i - cur);
  }

  lemma AtDist(cur: nat, q: nat)
    requires q < RING
    ensures (cur + Dist(q, cur % WORD32)) % RING == q
  {
    AheadOf(cur, Dist(q, cur % WORD32));
    DistIs(cur % WORD32, Dist(q, cur % WORD32), q);
  }

  // The slot before a wrapped index, and the length of a wrapped span.
  lemma Back(x: nat)
    requires x > 0
    ensures (x % WORD32 + WORD32 - 1) % WORD32 % RING == (x - 1) % RING
  {
    WordRing(x - 1);
  }

  lemma Span(start: nat, n: nat)
    requires start < WORD32 && n < WORD32
    ensures ((start + n) % WORD32 + WORD32 - start) % WORD32 == n
  {
  }

  // --------------------------------------------------- blocks of descriptors

  // The `n` ring entries from index `start` on.
  function Block<T>(ring: seq<T>, start: nat, n: nat): (block: seq<T>)
    requires |ring| == RING
    ensures |block| == n
  {
    seq(n, j requires 0 <= j < n => ring[(start + j) % RING])
  }

  lemma BlockAt(desc: seq<Desc>, start: nat, n: nat, j: nat)
    requires |desc| == RING && j < n
    ensures |Block(desc, start, n)| == n && Block(desc, start, n)[j] == desc[(start + j) % RING]
  {
  }

  lemma BlockUpdate(before: seq<Desc>, after: seq<Desc>, start: nat, n: nat, j: nat)
    requires |before| == RING && |after| == RING && j < n <= RING
    requires after == before[(start + j) % RING := after[(start + j) % RING]]
    ensures Block(after, start, n) == Block(before, start, n)[j := after[(start + j) % RING]]
  {
    DistOf(start, j);
    var block := Block(after, start, n);
    forall k | 0 <= k < n ensures block[k] == Block(before, start, n)[j := after[(start + j) % RING]][k] {
      DistOf(start, k);
    }
  }

  lemma ReplayMore(ds: seq<Desc>, ws: seq<Write>, w: Write)
    requires InRange(ws, |ds|) && w.j < |ds|
    ensures InRange(ws + [w], |ds|)
    ensures Replay(ds, ws + [w]) == Replay(ds, ws)[w.j := Put(Replay(ds, ws)[w.j], w.f)]
  {
    assert (ws + [w])[..|ws|] == ws;
  }

  lemma RestSnoc(job: Job, k: nat, done: seq<Write>)
    requires job.Valid() && 1 <= k < |job.pkt.bufs|
    ensures done + RestWrites(job, k) + On(job.Ctx() + k, RestFields(job.pkt, k)) == done + RestWrites(job, k + 1)
  {
  }

  // `block` is the packet's encoding, decided against the given state.
  ghost predicate HandsOver(mss: nat, tag: nat, coalesce: nat, frames: nat, p: Packet, block: seq<Desc>) {
    exists job: Job :: job.Valid() && job.pkt == p && D.Decided(job, mss, tag)
      && job.interrupt == C.Interrupts(coalesce, p.txPackets, frames) && block == Encode(job)
  }

  // ------------------------------------------------- the free part of the ring

  lemma RoomAhead(r: P.Ring, cur: nat, n: nat)
    requires r.Shaped() && P.Clear(r, P.Idle) && cur == r.cur % WORD32 && r.cur + n <= r.dirty + RING
    ensures RegionVacant(r.data, cur, n) && (n <= RING ==> Block(r.desc, cur, n) == Blank(n))
  {
    WordRing(r.cur);
    forall q | 0 <= q < RING && Dist(q, cur) < n ensures Vacant(r.data[q]) {
      var i := r.cur + Dist(q, cur);
      AtDist(r.cur, q);
      assert P.ClearAt(r, i);
    }
    if n <= RING {
      var block := Block(r.desc, cur, n);
      forall j | 0 <= j < n ensures block[j] == ZERO {
        AheadOf(r.cur, j);
        assert P.ClearAt(r, r.cur + j);
      }
    }
  }

  // What was clear past a packet's entries still is.
  lemma StillClear(r: P.Ring, v: P.Ring, start: nat, n: nat)
    requires r.Shaped() && v.Shaped() && P.Clear(r, P.Idle) && start == r.cur % WORD32
    requires SameOutside(r.desc, v.desc, start, n) && SameOutside(r.data, v.data, start, n)
    requires v.cur == r.cur + n && v.dirty == r.dirty && r.dirty <= r.cur && v.cur <= r.dirty + RING
    ensures P.Clear(v, P.Idle)
  {
    forall i: nat | v.cur <= i < v.dirty + RING ensures P.ClearAt(v, i) {
      DistLive(r.cur, i);
      assert P.ClearAt(r, i);
    }
  }

  // A rollback that ran leaves it clear.
  lemma RolledClear(r: P.Ring, v: P.Ring, start: nat, n: nat)
    requires r.Shaped() && v == r.(data := v.data) && |v.data| == RING && P.Clear(r, P.Idle) && start == r.cur % WORD32
    requires SameOutside(r.data, v.data, start, n) && RegionVacant(v.data, start, n) && r.dirty <= r.cur
    ensures P.Clear(v, P.Idle)
  {
    forall i: nat | v.cur <= i < v.dirty + RING ensures P.ClearAt(v, i) {
      DistLive(r.cur, i);
      assert P.ClearAt(r, i);
    }
  }

  // What happened to a packet given to `mac_xmit`.
  datatype Verdict = LinkDown | Empty | Busy | NotWritable | Unmappable | Sent

  function VerdictOf(skb: Skb, linkUp: bool, writable: bool, answers: Answers, mss: nat, tag: nat, avail: int): Verdict
    requires skb.WellFormed() && |Pieces(skb)| <= |answers|
  {
    if !linkUp then LinkDown
    else if skb.Len() == 0 then Empty
    else if Estimate(skb, mss, tag) > avail then Busy
    else if skb.Tso() && !writable then NotWritable
    else if Mappable(Pieces(skb), answers, 0) < |Pieces(skb)| then Unmappable
    else Sent
  }

  // A ring as it was before a call.
  datatype Before = Before(desc: seq<Desc>, data: seq<Slot>, cur: nat, head: nat, mss: nat, tag: nat, coalesce: nat,
                           queued: nat, maps: seq<Mapping>, unmaps: seq<Mapping>)

  class TxRing {
    var desc: array<Desc>
    var data: array<Slot>
    var cur: nat
    var dirty: nat
    var coalesce: nat
    var mss: nat
    var tag: nat
    var more: bool
    var stopped: bool
    var doorbell: nat
    const frames: nat                 // pdata->tx_frames

    // The world outside: bytes announced and bytes and frames reported to the
    // stack, DMA mappings made and undone, and packets freed, in the order of
    // the calls.
    var queued: nat
    var completed: nat
    var reported: nat
    var maps: seq<Mapping>
    var unmaps: seq<Mapping>
    var freed: seq<nat>

    // cur and dirty as they would be if they did not wrap.
    ghost var head: nat
    ghost var tail: nat

    // How far the device has got.
    ghost var hw: nat

    ghost predicate Valid()
      reads this`desc, this`data, this`cur, this`dirty, this`head, this`tail, this`coalesce
    {
      && desc.Length == RING && data.Length == RING
      && cur == head % WORD32 && dirty == tail % WORD32
      && tail <= head <= tail + RING
      && coalesce < WORD32
    }

    constructor (frames: nat)
      ensures Valid() && fresh(desc) && fresh(data)
      ensures cur == 0 && dirty == 0 && head == 0 && tail == 0
      ensures forall q :: 0 <= q < RING ==> desc[q] == ZERO && data[q] == EMPTY
      ensures this.frames == frames && hw == 0 && mss == 0 && tag == 0 && coalesce == 0 && queued == 0 && completed == 0 && reported == 0
      ensures Q() == P.Queue(false, false, 0) && maps == [] && unmaps == [] && freed == []
    {
      desc := new Desc[RING](_ => ZERO);
      data := new Slot[RING](_ => EMPTY);
      cur, dirty, coalesce, mss, tag, doorbell := 0, 0, 0, 0, 0, 0;
      more, stopped := false, false;
      queued, completed, reported := 0, 0, 0;
      maps, unmaps, freed := [], [], [];
      head, tail, hw := 0, 0, 0;
      this.frames := frames;
    }

    // mac_unmap_desc_data, as far as a transmit slot is concerned.
    method Unmap(i: nat)
      requires Valid()
      modifies data, this`unmaps, this`freed
      ensures data[..] == old(data[..])[i % RING := Unmapped(old(data[i % RING]))]
      ensures unmaps == old(unmaps) + Unmaps(old(data[i % RING]))
      ensures freed == old(freed) + Frees(old(data[i % RING]))
      ensures var s := old(data[i % RING]);
        && unmaps == old(unmaps) + (if s.dma != 0 then [Mapping(s.dma, s.dmaLen, s.asPage)] else [])
        && freed == old(freed) + (if s.skb.Some? then [s.skb.value] else [])
        && data[i % RING] == Slot(None, 0, if s.dma != 0 then 0 else s.dmaLen, false, 0, 0)
    {
      var q := i % RING;
      var s := data[q];
      if s.dma != 0 {
        unmaps := unmaps + [Mapping(s.dma, s.dmaLen, s.asPage)];
        s := s.(dma := 0, dmaLen := 0);
      }
      if s.skb.Some? {
        freed := freed + [s.skb.value];
        s := s.(skb := None);
      }
      data[q] := s.(packets := 0, bytes := 0, asPage := false);
    }

    // One dma_map call and the stores that follow it.
    method MapPiece(i: nat, p: Piece, answer: Option<nat>) returns (ok: bool)
      requires Valid()
      requires Vacant(data[i % RING])
      modifies data, this`maps
      ensures ok == answer.Some?
      ensures ok ==> data[..] == old(data[..])[i % RING := Entry(p, answer.value)]
      ensures ok ==> maps == old(maps) + [MappingOf(p, answer.value)] == old(maps) + [Mapping(answer.value, p.len, p.src.Frag?)]
      ensures ok ==> data[i % RING] == Slot(None, answer.value, p.len, p.src.Frag?, 0, 0)
      ensures !ok ==> data[..] == old(data[..]) && maps == old(maps)
    {
      if answer.None? {
        return false;
      }
      var q := i % RING;
      maps := maps + [MappingOf(p, answer.value)];
      data[q] := data[q].(dma := answer.value, dmaLen := p.len);
      if p.src.Frag? {
        data[q] := data[q].(asPage := true);
      }
      ok := true;
    }

    // err_out of mac_map_tx_skb, including its comparison of wrapped indices.
    method Rollback(start: nat, end: nat, ghost n: nat)
      requires Valid() && start < WORD32 && n <= RING && end == (start + n) % WORD32
      requires forall q :: 0 <= q < RING && Dist(q, start) < n ==> data[q].skb.None?
      modifies data, this`unmaps, this`freed
      ensures start + n < WORD32 ==>
                && data[..] == Swept(old(data[..]), start, n)
                && unmaps == old(unmaps) + SweptMappings(old(data[..]), start, n)
      ensures start + n >= WORD32 ==> data[..] == old(data[..]) && unmaps == old(unmaps)
      ensures freed == old(freed)
    {
      hide Swept, SweptMappings, Unmapped, Unmaps;
      RollbackEnd(start, n);
      var i := start;
      ghost var laid := data[..];
      ghost var k := 0;
      SweptNone(laid, start);
      while i < end
        invariant start + n < WORD32 ==> k <= n && i == start + k
        invariant start + n >= WORD32 ==> k == 0 && i == start
        invariant data[..] == Swept(laid, start, k)
        invariant unmaps == old(unmaps) + SweptMappings(laid, start, k)
        invariant freed == old(freed)
      {
        SweptAt(laid, start, k, i % RING);
        DistOf(start, k);
        assert data[i % RING] == laid[i % RING];
        SweptSnoc(laid, start, k + 1);
        SweptMappingsSnoc(laid, start, k);
        Unmap(i);
        i := i + 1;
        k := k + 1;
      }
    }

    // `done` pieces of a packet have been mapped, none has failed.
    ghost predicate Laying(plan: Plan, answers: Answers, done: nat, index: nat)
      reads this, data
    {
      && Valid()
      && plan.Fits(answers) && done <= |plan.ps| && Answered(answers, done)
      && index == (plan.base + done) % WORD32
      && data[..] == Lay(plan.data0, plan.base, plan.ps, answers, done)
      && maps == plan.maps0 + Mapped(plan.ps, answers, done)
    }

    // Maps the next piece of the packet.
    method MapNext(p: Piece, index: nat, done: nat, answers: Answers, ghost plan: Plan) returns (ok: bool)
      requires Laying(plan, answers, done, index) && done < |plan.ps| && plan.ps[done] == p
      modifies data, this`maps
      ensures ok ==> Laying(plan, answers, done + 1, Inc(index))
      ensures !ok ==> Laying(plan, answers, done, index) && answers[done].None?
    {
      hide Lay, Mapped, Entry, MappingOf;
      WordRing(plan.base + done);
      WordStep(plan.base + done);
      DistOf(plan.base, done);
      if answers[done].Some? {
        LaySnoc(plan.data0, plan.base, plan.ps, answers, done + 1);
        MappedSnoc(plan.ps, answers, done);
      }
      LayAt(plan.data0, plan.base, plan.ps, answers, done, index % RING);
      ok := MapPiece(index, p, answers[done]);
    }

    // The loop that maps one contiguous run of bytes, MAX_BUF at a time.
    method MapRun(src: Source, offset: nat, length: nat, index: nat, done: nat, answers: Answers,
                  ghost plan: Plan, ghost rest: seq<Piece>)
      returns (ok: bool, newIndex: nat, newDone: nat)
      requires Laying(plan, answers, done, index)
      requires plan.ps == plan.ps[..done] + Split(src, offset, length) + rest
      modifies data, this`maps
      ensures Laying(plan, answers, newDone, newIndex)
      ensures ok ==> plan.ps == plan.ps[..newDone] + rest
      ensures !ok ==> newDone < |plan.ps| && answers[newDone].None?
    {
      var off, datalen := offset, length;
      ok, newIndex, newDone := true, index, done;
      while datalen != 0 && ok
        invariant 0 <= datalen && 0 <= off && Laying(plan, answers, newDone, newIndex)
        invariant ok ==> plan.ps == plan.ps[..newDone] + Split(src, off, datalen) + rest
        invariant !ok ==> newDone < |plan.ps| && answers[newDone].None?
        decreases datalen, ok
      {
        NextPiece(plan.ps, newDone, src, off, datalen, rest);
        var len := Min(datalen, MAX_BUF);
        ok := MapNext(Piece(src, off, len), newIndex, newDone, answers, plan);
        if ok {
          datalen := datalen - len;
          off := off + len;
          newIndex := Inc(newIndex);
          newDone := newDone + 1;
        }
      }
    }

    // The mapping loops of mac_map_tx_skb, up to the first failure.
    method MapPieces(skb: Skb, answers: Answers, first: nat, ghost plan: Plan) returns (ok: bool, index: nat, done: nat)
      requires skb.WellFormed() && plan.ps == Pieces(skb) && Laying(plan, answers, 0, first)
      modifies data, this`maps
      ensures Laying(plan, answers, done, index)
      ensures ok ==> done == |plan.ps|
      ensures !ok ==> done < |plan.ps| && answers[done].None?
    {
      hide Laying, Lay, Mapped, Split, FragPieces;
      Sizes(plan, answers, 0, first);
      var offset := 0;
      ok, index, done := true, first, 0;
      if skb.Tso() {
        assert plan.ps[0] == Piece(Linear, 0, skb.hdrLen);
        ok := MapNext(Piece(Linear, 0, skb.hdrLen), index, done, answers, plan);
        if ok {
          offset := skb.hdrLen;
          index := Inc(index);
          done := 1;
        }
      }
      if ok {
        assert plan.ps[..done] == HeaderPieces(skb);
        ok, index, done := MapRun(Linear, offset, skb.headLen - offset, index, done, answers, plan, FragPieces(skb.frags, 0));
      }
      if ok {
        ok, index, done := MapFrags(skb.frags, index, done, answers, plan);
      }
    }

    lemma Sizes(plan: Plan, answers: Answers, done: nat, index: nat)
      requires Laying(plan, answers, done, index)
      ensures done <= |plan.ps| <= |answers|
    {
    }

    // The loop over the fragments.
    method MapFrags(frags: seq<nat>, first: nat, done0: nat, answers: Answers, ghost plan: Plan)
      returns (ok: bool, index: nat, done: nat)
      requires Laying(plan, answers, done0, first) && plan.ps == plan.ps[..done0] + FragPieces(frags, 0)
      modifies data, this`maps
      ensures Laying(plan, answers, done, index)
      ensures ok ==> done == |plan.ps|
      ensures !ok ==> done < |plan.ps| && answers[done].None?
    {
      hide Laying, Lay, Mapped, Split, FragPieces;
      Sizes(plan, answers, done0, first);
      ok, index, done := true, first, done0;
      var i := 0;
      while i < |frags| && ok
        invariant i <= |frags| && done <= |plan.ps| <= |answers| && Laying(plan, answers, done, index)
        invariant ok ==> plan.ps == plan.ps[..done] + FragPieces(frags, i)
        invariant !ok ==> done < |plan.ps| && answers[done].None?
        decreases |frags| - i, ok
      {
        NextFrag(plan.ps[..done], frags, i);
        ok, index, done := MapRun(Frag(i), 0, frags[i], index, done, answers, plan, FragPieces(frags, i + 1));
        Sizes(plan, answers, done, index);
        i := i + 1;
      }
      if ok {
        NoMoreFrags(frags);
      }
    }

    /** Maps a packet into the slots from `cur` on. On success the slots hold
        its pieces in order; on failure they are rolled back. */
    method MapTxSkb(skb: Skb, answers: Answers) returns (count: nat)
      requires Valid() && skb.WellFormed() && skb.Len() > 0 && |Pieces(skb)| <= |answers|
      requires Used(skb, mss, tag) <= RING && RegionVacant(data[..], cur, Used(skb, mss, tag))
      modifies data, this`maps, this`unmaps, this`freed
      ensures Valid() && freed == old(freed)
      ensures
        var ps, ctx := Pieces(skb), Context(skb, mss, tag);
        var m := Mappable(ps, answers, 0);
        && 0 < |ps|
        && maps == old(maps) + Mapped(ps, answers, m)
        && (m == |ps| ==>
              && count == ctx + |ps| && unmaps == old(unmaps)
              && data[..] == Laid(old(data[..]), cur + ctx, ps, answers, skb.id))
        && (m < |ps| ==>
              && count == 0 && RolledBack(old(data[..]), old(unmaps), cur, ctx, ps, answers, m))
    {
      hide Lay, Laid, Swept, Mapped, Mappable, Split, FragPieces, Estimate;
      var start, first := cur, cur;
      if NeedsContext(skb, mss, tag) {
        first := Inc(first);
      }
      ghost var ctx := Context(skb, mss, tag);
      ghost var plan := Plan(data[..], maps, cur + ctx, Pieces(skb));
      NothingLaid(plan.data0, plan.base, plan.ps, answers);
      UsedWithinEstimate(skb, mss, tag);
      RegionShift(data[..], cur, ctx, |Pieces(skb)|);
      var ok, index, done := MapPieces(skb, answers, first, plan);
      MappableIs(plan.ps, answers, done);
      if ok {
        count := Attach(skb.id, start, index, answers, plan, ctx);
      } else {
        Undo(start, index, answers, plan, ctx, done);
        count := 0;
      }
    }

    // Success: the packet goes on the last slot used.
    method Attach(id: nat, start: nat, index: nat, answers: Answers, ghost plan: Plan, ghost ctx: nat) returns (count: nat)
      requires 0 < |plan.ps| && Laying(plan, answers, |plan.ps|, index)
      requires start < WORD32 && ctx <= 1 && plan.base == start + ctx && ctx + |plan.ps| <= RING
      modifies data
      ensures data[..] == Laid(plan.data0, plan.base, plan.ps, answers, id)
      ensures count == ctx + |plan.ps|
    {
      Back(plan.base + |plan.ps|);
      Span(start, ctx + |plan.ps|);
      var last := (index + WORD32 - 1) % WORD32 % RING;
      data[last] := data[last].(skb := Some(id));
      count := (index + WORD32 - start) % WORD32;
    }

    // Failure: the rollback and its effect.
    method Undo(start: nat, index: nat, answers: Answers, ghost plan: Plan, ghost ctx: nat, ghost done: nat)
      requires Laying(plan, answers, done, index)
      requires start < WORD32 && ctx <= 1 && plan.base == start + ctx && ctx + |plan.ps| <= RING
      requires RegionVacant(plan.data0, start, ctx + done)
      modifies data, this`unmaps, this`freed
      ensures freed == old(freed) && RolledBack(plan.data0, old(unmaps), start, ctx, plan.ps, answers, done)
    {
      hide Lay, Swept, SweptMappings, Mapped, AfterRollback, UndoneBy;
      NoPacketLaid(plan.data0, start, ctx, plan.ps, answers, done);
      RollbackIs(plan.data0, start, ctx, plan.ps, answers, done);
      Rollback(start, index, ctx + done);
    }

    // What a rollback from index `start` on leaves, `m` pieces having been
    // mapped after `ctx` context descriptors.
    ghost predicate RolledBack(data0: seq<Slot>, unmaps0: seq<Mapping>, start: nat, ctx: nat, ps: seq<Piece>, answers: Answers, m: nat)
      reads this`data, this`unmaps, data
      requires m <= |ps| && Answered(answers, m)
    {
      && |data0| == RING == data.Length && m <= RING
      && data[..] == AfterRollback(data0, start, ctx, ps, answers, m)
      && unmaps == unmaps0 + UndoneBy(start, ctx, ps, answers, m)
    }

    // ------------------------------------------------ filling descriptors

    // The writes `ws`, and no others, have been made to the `n` descriptors
    // from index `start` on.
    ghost predicate Emitted(desc0: seq<Desc>, start: nat, n: nat, ws: seq<Write>)
      reads this, desc
    {
      && desc.Length == RING == |desc0| && n <= RING && InRange(ws, n)
      && Block(desc[..], start, n) == Replay(Block(desc0, start, n), ws)
      && forall q :: 0 <= q < RING && Dist(q, start) >= n ==> desc[q] == desc0[q]
    }

    method Emit(start: nat, j: nat, f: Field, ghost desc0: seq<Desc>, ghost n: nat, ghost ws: seq<Write>) returns (ghost next: seq<Write>)
      requires Emitted(desc0, start, n, ws) && j < n
      modifies desc
      ensures next == ws + [Write(j, f)] && Emitted(desc0, start, n, next)
    {
      hide Replay, Put, Block;
      var q := (start + j) % RING;
      ghost var before := desc[..];
      DistOf(start, j);
      desc[q] := Put(desc[q], f);
      next := ws + [Write(j, f)];
      BlockUpdate(before, desc[..], start, n, j);
      BlockAt(before, start, n, j);
      ReplayMore(Block(desc0, start, n), ws, Write(j, f));
    }

    // A run of read-modify-writes of one descriptor.
    method EmitAll(start: nat, j: nat, fs: seq<Field>, ghost desc0: seq<Desc>, ghost n: nat, ghost ws: seq<Write>)
      returns (ghost next: seq<Write>)
      requires Emitted(desc0, start, n, ws) && j < n
      modifies desc
      ensures next == ws + On(j, fs) && Emitted(desc0, start, n, next)
    {
      next := ws;
      for k := 0 to |fs|
        invariant next == ws + On(j, fs[..k]) && Emitted(desc0, start, n, next)
      {
        next := Emit(start, j, fs[k], desc0, n, next);
        assert On(j, fs[..k + 1]) == On(j, fs[..k]) + [Write(j, fs[k])];
      }
      assert fs[..|fs|] == fs;
    }

    // mac_dev_xmit up to the write barrier: every descriptor of the packet,
    // the first one not yet given away.
    method FillDescriptors(start: nat, job: Job, ghost desc0: seq<Desc>) returns (ghost ws: seq<Write>)
      requires job.Valid() && Emitted(desc0, start, job.Count(), [])
      modifies desc
      ensures ws == Body(job) && Emitted(desc0, start, job.Count(), ws)
    {
      hide Emitted, Replay, Put, Block, On, HeadWrites, RestWrites, ClosingFields;
      ws := FillHead(start, job, desc0);
      ws := FillRest(start, job, desc0, ws);
      ws := EmitAll(start, job.Count() - 1, ClosingFields(job), desc0, job.Count(), ws);
    }

    // The context descriptor, if there is one, and the first buffer's.
    method FillHead(start: nat, job: Job, ghost desc0: seq<Desc>) returns (ghost ws: seq<Write>)
      requires job.Valid() && Emitted(desc0, start, job.Count(), [])
      modifies desc
      ensures ws == HeadWrites(job) && Emitted(desc0, start, job.Count(), ws)
    {
      hide Emitted, Replay, Put, Block, On, ContextFields, FirstFields;
      ws := [];
      var index := 0;
      if job.mssContext || job.tagContext {
        ws := EmitAll(start, index, ContextFields(job), desc0, job.Count(), ws);
        index := 1;
      }
      ws := EmitAll(start, index, FirstFields(job), desc0, job.Count(), ws);
    }

    method FillRest(start: nat, job: Job, ghost desc0: seq<Desc>, ghost done: seq<Write>) returns (ghost ws: seq<Write>)
      requires job.Valid() && Emitted(desc0, start, job.Count(), done)
      modifies desc
      ensures ws == done + RestWrites(job, |job.pkt.bufs|) && Emitted(desc0, start, job.Count(), ws)
    {
      hide Emitted, Replay, Put, Block;
      ws := done;
      var c := job.Ctx();
      for k := 1 to |job.pkt.bufs|
        invariant ws == done + RestWrites(job, k) && Emitted(desc0, start, job.Count(), ws)
      {
        ghost var before := ws;
        ws := EmitAll(start, c + k, RestFields(job.pkt, k), desc0, job.Count(), ws);
        RestSnoc(job, k, done);
      }
    }

    ghost function R(): P.Ring
      reads this`desc, this`data, this`head, this`tail, this`hw, desc, data
    {
      P.Ring(desc[..], data[..], head, tail, hw)
    }

    ghost function Q(): P.Queue
      reads this`stopped, this`more, this`doorbell
    {
      P.Queue(stopped, more, doorbell)
    }

    // Nothing is recorded outside the window.
    ghost predicate Clean()
      reads this`desc, this`data, this`cur, this`dirty, this`head, this`tail, this`coalesce, this`hw, desc, data
    {
      Valid() && P.Clear(R(), P.Idle)
    }

    // mac_maybe_stop_tx_queue
    method MaybeStop(count: nat) returns (busy: bool)
      requires Valid()
      modifies this`stopped, this`more, this`doorbell
      ensures busy == (count > RING - (head - tail))
      ensures Q() == P.Stopping(old(Q()), busy, cur)
      ensures if busy then stopped && !more && doorbell == (if old(more) then cur else old(doorbell))
              else stopped == old(stopped) && more == old(more) && doorbell == old(doorbell)
    {
      FreeRunning(head, tail);
      busy := count > Avail32(cur, dirty);
      if busy {
        stopped := true;
        if more {
          StartXmit();
        }
      }
    }

    // mac_tx_start_xmit
    method StartXmit()
      modifies this`more, this`doorbell
      ensures doorbell == cur && !more
    {
      doorbell := cur;
      more := false;
    }

    /** Turns a mapped packet into descriptors and hands it over. */
    method DevXmit(p: Packet, hold: bool) returns (ghost job: Job, ghost ws: seq<Write>)
      requires Valid() && p.bufs != [] && (p.tso ==> p.csum)
      requires
        var n := ContextOf(p, mss, tag) + |p.bufs|;
        && head - tail + n <= RING
        && Block(desc[..], cur, n) == Blank(n)
        && SlotsHold(data[..], cur + ContextOf(p, mss, tag), p)
      modifies desc, data, this`cur, this`head, this`coalesce, this`mss, this`tag, this`more, this`doorbell
      ensures Valid() && job.Valid() && job.pkt == p && D.Decided(job, old(mss), old(tag))
      ensures job.interrupt == C.Interrupts(coalesce, p.txPackets, frames)
      ensures coalesce == C.Counted(old(coalesce), p.txPackets)
      ensures ws == Script(job)
      ensures Block(desc[..], old(cur), job.Count()) == Encode(job)
      ensures forall q :: 0 <= q < RING && Dist(q, old(cur)) >= job.Count() ==> desc[q] == old(desc[..])[q]
      ensures mss == D.NextMss(job, old(mss)) && tag == D.NextTag(job, old(tag))
      ensures var last := (old(cur) + job.Count() - 1) % RING;
        data[..] == old(data[..])[last := old(data[..])[last].(packets := p.txPackets, bytes := p.txBytes)]
      ensures head == old(head) + job.Count() && tail == old(tail)
      ensures Q() == P.Handing(old(Q()), hold, cur)
    {
      hide Script, Encode, Put, Blank;
      var decided := Decide(p);
      job := decided;
      ws := WriteDescriptors(cur, decided);
      if decided.mssContext { mss := p.mss; }
      if decided.tagContext { tag := p.ctag; }
      Announce(decided.Count(), hold);
    }

    // The end of mac_dev_xmit: the new index, then the doorbell or not.
    method Announce(n: nat, hold: bool)
      requires Valid() && head - tail + n <= RING
      modifies this`cur, this`head, this`more, this`doorbell
      ensures Valid() && head == old(head) + n && cur == (old(cur) + n) % WORD32
      ensures Q() == P.Handing(old(Q()), hold, cur)
      ensures if hold then more && doorbell == old(doorbell) else !more && doorbell == cur
    {
      HeadWraps(head, n);
      cur := (cur + n) % WORD32;
      head := head + n;
      if !hold {
        StartXmit();
      } else {
        more := true;
      }
    }

    // The choices at the top of mac_dev_xmit.
    method Decide(p: Packet) returns (job: Job)
      requires p.bufs != [] && (p.tso ==> p.csum)
      modifies this`coalesce
      ensures job.Valid() && job.pkt == p && D.Decided(job, mss, tag) && job.Ctx() == ContextOf(p, mss, tag)
      ensures job.mssContext == (p.tso && p.mss != mss) && job.tagContext == (p.vlan && p.ctag != tag)
      ensures coalesce == C.Counted(old(coalesce), p.txPackets)
      ensures job.interrupt == C.Interrupts(coalesce, p.txPackets, frames)
    {
      coalesce := (coalesce + p.txPackets) % WORD32;
      var interrupt := false;
      if frames != 0 {
        if p.txPackets > frames {
          interrupt := true;
        } else if coalesce % frames < p.txPackets {
          interrupt := true;
        }
      }
      job := Job(p, p.tso && p.mss != mss, p.vlan && p.ctag != tag, interrupt);
    }

    // Every descriptor write of mac_dev_xmit, the packet's counts saved just
    // before the last one.
    method WriteDescriptors(start: nat, job: Job) returns (ghost ws: seq<Write>)
      requires Valid() && job.Valid() && job.Count() <= RING && Block(desc[..], start, job.Count()) == Blank(job.Count())
      modifies desc, data
      ensures ws == Script(job)
      ensures Block(desc[..], start, job.Count()) == Encode(job)
      ensures forall q :: 0 <= q < RING && Dist(q, start) >= job.Count() ==> desc[q] == old(desc[..])[q]
      ensures var last := (start + job.Count() - 1) % RING;
        data[..] == old(data[..])[last := old(data[..])[last].(packets := job.pkt.txPackets, bytes := job.pkt.txBytes)]
    {
      ghost var blank := desc[..];
      ws := FillDescriptors(start, job, blank);
      var last := (start + job.Count() - 1) % RING;
      data[last] := data[last].(packets := job.pkt.txPackets, bytes := job.pkt.txBytes);
      ws := Emit(start, 0, PutOwn, blank, job.Count(), ws);
      ScriptReplay(job);
    }

    // One pass of the loop of mac_tx_poll.
    method ReclaimSlot() returns (packets: nat, bytes: nat)
      requires Clean() && tail < head
      modifies this`dirty, this`tail, this`unmaps, this`freed, desc, data
      ensures Clean()
      ensures R() == P.ReclaimOne(old(R()))
      ensures var d, s := old(R()).D(old(tail)), old(R()).S(old(tail));
        && packets == (if d.mark.ld then s.packets else 0) && bytes == (if d.mark.ld then s.bytes else 0)
        && unmaps == old(unmaps) + Unmaps(s) && freed == old(freed) + Frees(s)
    {
      WordRing(tail);
      var q := dirty % RING;
      packets, bytes := 0, 0;
      if desc[q].mark.ld {
        packets, bytes := data[q].packets, data[q].bytes;
      }
      P.ReclaimClears(R(), P.Idle);
      Unmap(dirty);
      desc[q] := ZERO;
      HeadWraps(tail, 1);
      dirty := Inc(dirty);
      tail := tail + 1;
    }

    // The loop of mac_tx_poll, over at most `budget` slots.
    method ReclaimSlots(budget: nat) returns (processed: nat, packets: nat, bytes: nat)
      requires Clean()
      modifies this`dirty, this`tail, this`unmaps, this`freed, desc, data
      ensures Clean()
      ensures var s := PollLoop(Totals(old(R()), 0, 0, 0, [], []), budget);
        && R() == s.ring && processed == s.count && packets == s.packets && bytes == s.bytes
        && unmaps == old(unmaps) + s.unmaps && freed == old(freed) + s.frees
    {
      hide P.Clear, PollLoop, Unmaps, Frees;
      var limit := cur;
      processed, packets, bytes := 0, 0, 0;
      ghost var s := Totals(R(), 0, 0, 0, [], []);
      ghost var result := PollLoop(s, budget);
      WordRing(tail);
      FreeRunning(head, tail);
      while processed < budget && dirty != limit && !desc[dirty % RING].own
        invariant Clean() && head == old(head)
        invariant dirty % RING == tail % RING && (dirty == limit <==> head == tail)
        invariant 0 <= processed <= budget
        invariant s.ring == R() && s.count == processed && s.packets == packets && s.bytes == bytes
        invariant unmaps == old(unmaps) + s.unmaps && freed == old(freed) + s.frees
        invariant PollLoop(s, budget - processed) == result
      {
        PollOn(s, budget - processed);
        s := PollNext(s);
        var p, b := ReclaimSlot();
        packets, bytes := packets + p, bytes + b;
        processed := processed + 1;
        WordRing(tail);
        FreeRunning(head, tail);
      }
      PollStops(s, budget - processed);
    }

    /** Reclaims completed slots, at most MAX_PROC of them, and reports their
        bytes and frames; returns how many there were. */
    method TxPoll() returns (processed: nat)
      requires Clean()
      modifies this`dirty, this`tail, this`completed, this`reported, this`stopped, this`unmaps, this`freed, desc, data
      ensures Clean()
      ensures var s := PollResult(old(R()));
        && R() == s.ring && processed == s.count
        && completed == old(completed) + s.bytes && reported == old(reported) + s.packets
        && unmaps == old(unmaps) + s.unmaps && freed == old(freed) + s.frees
        && stopped == (old(stopped) && (processed == 0 || RING - (head - tail) <= P.MIN_FREE))
    {
      hide PollLoop, P.Clear, Unmaps, Frees;
      var packets, bytes;
      processed, packets, bytes := ReclaimSlots(P.MAX_PROC);
      ReclaimedNothing(Totals(old(R()), 0, 0, 0, [], []), P.MAX_PROC);
      if processed == 0 {
        return;
      }
      completed, reported := completed + bytes, reported + packets;
      FreeRunning(head, tail);
      if stopped && Avail32(cur, dirty) > P.MIN_FREE {
        stopped := false;
      }
    }

    // mac_xmit's use of the mapping: a packet that cannot be mapped is freed.
    method MapOrFree(skb: Skb, answers: Answers) returns (ok: bool)
      requires Valid() && skb.WellFormed() && skb.Len() > 0 && |Pieces(skb)| <= |answers|
      requires Used(skb, mss, tag) <= RING && RegionVacant(data[..], cur, Used(skb, mss, tag))
      modifies data, this`maps, this`unmaps, this`freed
      ensures Valid() && 0 < |Pieces(skb)|
      ensures ok == (Mappable(Pieces(skb), answers, 0) == |Pieces(skb)|)
      ensures ok ==> freed == old(freed) && data[..] == Laid(old(data[..]), cur + Context(skb, mss, tag), Pieces(skb), answers, skb.id)
      ensures ok ==> maps == old(maps) + Mapped(Pieces(skb), answers, |Pieces(skb)|) && unmaps == old(unmaps)
      ensures !ok ==> freed == old(freed) + [skb.id] && GivenUp(old(Snap()), skb, answers)
    {
      var count := MapTxSkb(skb, answers);
      ok := count != 0;
      if !ok {
        freed := freed + [skb.id];
      }
    }

    // mac_xmit once the packet is mapped: its bytes are announced and its
    // descriptors handed over.
    method Dispatch(skb: Skb, answers: Answers, hold: bool, ghost data0: seq<Slot>)
      requires Valid() && skb.WellFormed() && Answered(answers, |Pieces(skb)|) && 0 < |Pieces(skb)| && |data0| == RING
      requires var n := Used(skb, mss, tag);
        && n <= RING - (head - tail) && Block(desc[..], cur, n) == Blank(n)
        && data[..] == Laid(data0, cur + Context(skb, mss, tag), Pieces(skb), answers, skb.id)
      modifies this`cur, this`head, this`coalesce, this`mss, this`tag, this`more, this`doorbell, this`queued, desc, data
      ensures Valid() && SentOff(old(cur), Used(skb, old(mss), old(tag)), old(mss), old(tag), old(coalesce), PacketOf(skb, answers))
      ensures queued == old(queued) + PrepTso(skb).txBytes && head == old(head) + Used(skb, old(mss), old(tag))
      ensures Q() == P.Handing(old(Q()), hold, cur)
      ensures SameOutside(old(desc[..]), desc[..], old(cur), Used(skb, old(mss), old(tag)))
      ensures data[..] == KeptOf(skb, answers, data0, old(cur), old(mss), old(tag))
    {
      hide Lay, Laid, Block, HandsOver;
      queued := queued + PrepTso(skb).txBytes;
      ContextAgrees(skb, answers, mss, tag);
      Launch(skb.id, PacketOf(skb, answers), hold, answers, data0, Pieces(skb));
    }

    method Launch(id: nat, p: Packet, hold: bool, answers: Answers, ghost data0: seq<Slot>, ghost ps: seq<Piece>)
      requires Valid() && Carries(p, ps, answers) && (p.tso ==> p.csum) && |data0| == RING
      requires var n := ContextOf(p, mss, tag) + |ps|;
        && n <= RING - (head - tail) && Block(desc[..], cur, n) == Blank(n)
        && data[..] == Laid(data0, cur + ContextOf(p, mss, tag), ps, answers, id)
      modifies this`cur, this`head, this`coalesce, this`mss, this`tag, this`more, this`doorbell, desc, data
      ensures Valid() && SentOff(old(cur), ContextOf(p, old(mss), old(tag)) + |ps|, old(mss), old(tag), old(coalesce), p)
      ensures SameOutside(old(desc[..]), desc[..], old(cur), ContextOf(p, old(mss), old(tag)) + |ps|)
      ensures data[..] == Kept(data0, old(cur) + ContextOf(p, old(mss), old(tag)), ps, answers, id, p.txPackets, p.txBytes)
      ensures head == old(head) + ContextOf(p, old(mss), old(tag)) + |ps| && Q() == P.Handing(old(Q()), hold, cur)
    {
      hide Lay, Laid, Block, Encode, Script, Blank;
      PacketSlots(data0, cur + ContextOf(p, mss, tag), ps, answers, id, p);
      ghost var job, ws := DevXmit(p, hold);
    }

    // The packet's encoding is in the `n` descriptors from index `start` on,
    // and the segment size, tag and frame count last told are up to date.
    ghost predicate SentOff(start: nat, n: nat, mss0: nat, tag0: nat, coalesce0: nat, p: Packet)
      reads this`desc, this`coalesce, this`mss, this`tag, desc
    {
      && desc.Length == RING && n <= RING && HandsOver(mss0, tag0, coalesce, frames, p, Block(desc[..], start, n))
      && mss == (if p.tso then p.mss else mss0) && tag == (if p.vlan then p.ctag else tag0)
      && coalesce == C.Counted(coalesce0, p.txPackets)
    }

    ghost function Snap(): Before
      reads this`desc, this`data, this`cur, this`head, this`mss, this`tag, this`coalesce, this`queued, this`maps, this`unmaps, desc, data
    {
      Before(desc[..], data[..], cur, head, mss, tag, coalesce, queued, maps, unmaps)
    }

    /** The packet is in the ring: its encoding and its slots in place, nothing
        else touched, its pieces mapped, its bytes announced. */
    ghost predicate SentAs(b: Before, skb: Skb, answers: Answers)
      reads this`desc, this`data, this`head, this`mss, this`tag, this`coalesce, this`queued, this`maps, this`unmaps, desc, data
      requires skb.WellFormed()
    {
      var n := Used(skb, b.mss, b.tag);
      && 0 < |Pieces(skb)| && Answered(answers, |Pieces(skb)|)
      && |b.desc| == |b.data| == RING == desc.Length == data.Length
      && SentOff(b.cur, n, b.mss, b.tag, b.coalesce, PacketOf(skb, answers))
      && SameOutside(b.desc, desc[..], b.cur, n)
      && data[..] == KeptOf(skb, answers, b.data, b.cur, b.mss, b.tag)
      && maps == b.maps + Mapped(Pieces(skb), answers, |Pieces(skb)|) && unmaps == b.unmaps
      && queued == b.queued + PrepTso(skb).txBytes && head == b.head + n
    }

    // No packet has been added.
    ghost predicate NotSent(b: Before)
      reads this`desc, this`head, this`mss, this`tag, this`coalesce, this`queued, desc
    {
      && head == b.head && queued == b.queued && desc[..] == b.desc
      && mss == b.mss && tag == b.tag && coalesce == b.coalesce
    }

    // What a packet that could not be mapped leaves behind.
    ghost predicate GivenUp(b: Before, skb: Skb, answers: Answers)
      reads this`data, this`maps, this`unmaps, data
      requires skb.WellFormed() && |Pieces(skb)| <= |answers|
    {
      var m := Mappable(Pieces(skb), answers, 0);
      && maps == b.maps + Mapped(Pieces(skb), answers, m)
      && RolledBack(b.data, b.unmaps, b.cur, Context(skb, b.mss, b.tag), Pieces(skb), answers, m)
    }

    // The rollback skipped something.
    predicate LeftBehind(skb: Skb, answers: Answers)
      reads this`cur, this`mss, this`tag
      requires skb.WellFormed() && |Pieces(skb)| <= |answers|
    {
      var m := Mappable(Pieces(skb), answers, 0);
      m > 0 && Skipped(cur, Context(skb, mss, tag), m)
    }

    // A rollback that ran leaves the free part of the ring clear.
    lemma ClearAgain(b: Before, r: P.Ring, skb: Skb, answers: Answers)
      requires skb.WellFormed() && |Pieces(skb)| <= |answers| && Used(skb, mss, tag) <= r.Avail()
      requires r.Shaped() && P.Clear(r, P.Idle) && r.dirty <= r.cur && R() == r.(data := data[..]) && cur == r.cur % WORD32
      requires b.data == r.data && b.cur == cur && b.mss == mss && b.tag == tag
      requires GivenUp(b, skb, answers) && !LeftBehind(skb, answers)
      ensures P.Clear(R(), P.Idle)
    {
      hide P.Clear, Mapped, AfterRollback, UndoneBy, Pieces;
      var ctx, m := Context(skb, mss, tag), Mappable(Pieces(skb), answers, 0);
      RoomAhead(r, cur, ctx + m);
      RollbackLaw(r.data, cur, ctx, Pieces(skb), answers, m);
      RolledClear(r, R(), cur, ctx + m);
    }

    /** `mac_xmit`: what becomes of a packet in each case. It is freed exactly
        when it was empty, its header could not be made writable, or its
        mapping failed; it is left alone when the link is down or the ring is
        full; otherwise the ring owns it and its bytes are announced. */
    method Transmit(skb: Skb, linkUp: bool, writable: bool, answers: Answers, hold: bool) returns (r: Verdict)
      requires Clean() && skb.WellFormed() && |Pieces(skb)| <= |answers|
      modifies this`cur, this`head, this`coalesce, this`mss, this`tag, this`more, this`stopped, this`doorbell, this`queued
      modifies this`maps, this`unmaps, this`freed, desc, data
      ensures Valid() && (Clean() || (r == Unmappable && LeftBehind(skb, answers)))
      ensures Q() == match r
                     case Busy => P.Stopping(old(Q()), true, cur)
                     case Sent => P.Stopping(P.Handing(old(Q()), hold, cur), MAX_DESC_NR > RING - (head - tail), cur)
                     case _ => old(Q())
      ensures r == VerdictOf(skb, linkUp, writable, answers, old(mss), old(tag), RING - (old(head) - tail))
      ensures freed == old(freed) + (if r == Empty || r == NotWritable || r == Unmappable then [skb.id] else [])
      ensures r == Sent ==> SentAs(old(Snap()), skb, answers) && (stopped || RING - (head - tail) >= MAX_DESC_NR)
      ensures r != Sent ==> NotSent(old(Snap()))
      ensures r == Unmappable ==> GivenUp(old(Snap()), skb, answers)
      ensures r != Sent && r != Unmappable ==> data[..] == old(data[..]) && maps == old(maps) && unmaps == old(unmaps)
    {
      hide Lay, Laid, Kept, KeptOf, Block, HandsOver, SameOutside, Mapped, PacketOf, P.Clear, P.Handing, Estimate;
      hide SentOff, SentAs, GivenUp, LeftBehind, Pieces, Used, Mappable, PrepTso, Split, FragPieces;
      r := Screen(skb, linkUp, writable);
      if r != Sent {
        return;
      }
      UsedWithinEstimate(skb, mss, tag);
      r := Deliver(skb, answers, hold);
    }

    // mac_xmit from the mapping on: the queue is stopped in advance if the next
    // packet might not fit.
    method Deliver(skb: Skb, answers: Answers, hold: bool) returns (r: Verdict)
      requires Clean() && skb.WellFormed() && skb.Len() > 0 && |Pieces(skb)| <= |answers|
      requires Used(skb, mss, tag) <= RING - (head - tail)
      modifies this`cur, this`head, this`coalesce, this`mss, this`tag, this`more, this`stopped, this`doorbell, this`queued
      modifies this`maps, this`unmaps, this`freed, desc, data
      ensures r == if Mappable(Pieces(skb), answers, 0) < |Pieces(skb)| then Unmappable else Sent
      ensures Valid() && (Clean() || (r == Unmappable && LeftBehind(skb, answers)))
      ensures freed == old(freed) + (if r == Unmappable then [skb.id] else [])
      ensures Q() == if r == Sent then P.Stopping(P.Handing(old(Q()), hold, cur), MAX_DESC_NR > RING - (head - tail), cur) else old(Q())
      ensures r == Sent ==> SentAs(old(Snap()), skb, answers) && (stopped || RING - (head - tail) >= MAX_DESC_NR)
      ensures r == Unmappable ==> NotSent(old(Snap())) && GivenUp(old(Snap()), skb, answers)
    {
      hide P.Clear, P.Handing, SentAs, GivenUp, LeftBehind, Pieces, Used, Mappable, PrepTso, Split, FragPieces;
      r := Proceed(skb, answers, hold);
      if r == Sent {
        var busy := MaybeStop(MAX_DESC_NR);
      }
    }

    // mac_xmit from the mapping to the hand-over.
    method Proceed(skb: Skb, answers: Answers, hold: bool) returns (r: Verdict)
      requires Clean() && skb.WellFormed() && skb.Len() > 0 && |Pieces(skb)| <= |answers|
      requires Used(skb, mss, tag) <= RING - (head - tail)
      modifies this`cur, this`head, this`coalesce, this`mss, this`tag, this`more, this`doorbell, this`queued
      modifies this`maps, this`unmaps, this`freed, desc, data
      ensures r == if Mappable(Pieces(skb), answers, 0) < |Pieces(skb)| then Unmappable else Sent
      ensures if r == Sent then Clean() && freed == old(freed) else Valid() && freed == old(freed) + [skb.id]
      ensures r == Unmappable ==> LeftBehind(skb, answers) || Clean()
      ensures Q() == if r == Sent then P.Handing(old(Q()), hold, cur) else old(Q())
      ensures r == Sent ==> SentAs(old(Snap()), skb, answers)
      ensures r == Unmappable ==>
                && NotSent(old(Snap()))
                && GivenUp(old(Snap()), skb, answers)
    {
      hide Lay, Laid, Kept, KeptOf, Block, HandsOver, PacketOf, Mapped, P.Clear, P.Handing, SentOff, GivenUp, RolledBack, SameOutside, LeftBehind, Estimate, Pieces;
      ghost var r0, n := R(), Used(skb, mss, tag);
      RoomAhead(r0, cur, n);
      var ok := MapOrFree(skb, answers);
      if ok {
        Dispatch(skb, answers, hold, r0.data);
        KeptOfOutside(skb, answers, r0.data, old(cur), old(mss), old(tag));
        StillClear(r0, R(), old(cur), n);
        r := Sent;
      } else {
        r := Unmappable;
        if !LeftBehind(skb, answers) {
          ClearAgain(old(Snap()), r0, skb, answers);
        }
      }
    }

    // The checks mac_xmit makes before mapping anything.
    method Screen(skb: Skb, linkUp: bool, writable: bool) returns (r: Verdict)
      requires Valid() && skb.WellFormed()
      modifies this`freed, this`more, this`stopped, this`doorbell
      ensures r == if !linkUp then LinkDown
                   else if skb.Len() == 0 then Empty
                   else if Estimate(skb, mss, tag) > RING - (head - tail) then Busy
                   else if skb.Tso() && !writable then NotWritable
                   else Sent
      ensures freed == old(freed) + (if r == Empty || r == NotWritable then [skb.id] else [])
      ensures Q() == if r == Busy then P.Stopping(old(Q()), true, cur) else old(Q())
    {
      if !linkUp {
        return LinkDown;
      }
      if skb.Len() == 0 {
        freed := freed + [skb.id];
        return Empty;
      }
      var prep := PrepTxPkt(skb, mss, tag);
      var busy := MaybeStop(prep.descCount);
      if busy {
        return Busy;
      }
      if prep.tso && !writable {
        freed := freed + [skb.id];
        return NotWritable;
      }
      r := Sent;
    }
  }
}
