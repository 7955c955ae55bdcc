/** The receive ring as the driver keeps it: buffers, OWN bits and 32-bit
    indices, updated in place. Refreshing (`mac_rx_refresh`) is a loop; every
    pass is a run of the protocol's steps. */
module RxRefresh {
  import opened Common
  import opened RxPages
  import opened RxRing
  import opened RxBuffers
  import P = RxProtocol
  import K = RxPackets

  // The state saved in an entry when a poll ends in the middle of a packet,
  // and the header length last reported for the entry.
  datatype Entry = Entry(saved: Option<K.Partial>, hdrLen: nat)

  const EMPTY: Entry := Entry(None, 0)

  // ---------------------------------------------------- protocol steps taken

  /** A step taken from a reachable state reaches another one. */
  lemma Onward(bufSize: nat, w: P.Rx, a: P.Action)
    requires P.Reachable(bufSize, w) && P.Enabled(w, a)
    ensures P.Reachable(bufSize, P.Next(w, a))
  {
    var hdrLens: seq<nat>, bufLens: seq<nat>, actions: seq<P.Action> :|
      bufSize > 0 && P.Enough(HDR_SLICE, hdrLens) && P.Enough(bufSize, bufLens)
      && P.Reaches(P.Start(bufSize, hdrLens, bufLens), actions, w);
    P.One(w, a);
    P.ReachesThen(P.Start(bufSize, hdrLens, bufLens), actions, w, [a], P.Next(w, a));
  }

  lemma AtStart(bufSize: nat, hdrLens: seq<nat>, bufLens: seq<nat>)
    requires bufSize > 0 && P.Enough(HDR_SLICE, hdrLens) && P.Enough(bufSize, bufLens)
    ensures P.Reachable(bufSize, P.Start(bufSize, hdrLens, bufLens))
  {
    assert P.Reaches(P.Start(bufSize, hdrLens, bufLens), [], P.Start(bufSize, hdrLens, bufLens));
  }

  // What the methods below need to know of a reachable state.
  lemma Facts(bufSize: nat, w: P.Rx)
    requires P.Reachable(bufSize, w)
    ensures |w.own| == RING && w.hdr.Shaped() && w.buf.Shaped()
    ensures w.dirty <= w.cur <= w.hw <= w.dirty + RING + 1 && (w.stage.Idle? ==> w.hw <= w.dirty + RING)
    ensures w.stage.Idle? && w.cur < w.dirty + RING ==> (P.Own(w, w.cur) <==> w.cur == w.hw)
    ensures w.stage.Idle? && w.cur < w.dirty + RING ==> CanTake(w.buf, w.cur)
  {
    P.InvReachable(bufSize, w);
    if w.stage.Idle? && w.cur < w.dirty + RING {
      assert P.Own(w, w.cur) <==> w.cur >= w.hw;
      P.TakeLane(w.buf, P.Lo(w), P.Hi(w), w.cur);
    }
  }

  // The device has an entry to complete until it is a whole ring ahead.
  lemma StillOwns(bufSize: nat, w: P.Rx)
    requires P.Reachable(bufSize, w) && w.stage.Idle?
    ensures |w.own| == RING && (P.Own(w, w.hw) <==> w.hw < w.dirty + RING)
  {
    P.InvReachable(bufSize, w);
    if w.hw == w.dirty + RING {
      NextLap(w.dirty);
      assert P.Own(w, w.dirty) <==> w.dirty >= w.hw;
    } else {
      assert P.Own(w, w.hw) <==> w.hw >= w.hw;
    }
  }

  predicate Fitting(w: P.Rx) {
    w.hdr.slice == HDR_SLICE && 0 < w.buf.slice <= PAGE_SIZE
  }

  lemma MapEnabled(bufSize: nat, w: P.Rx, o: Offers)
    requires P.Reachable(bufSize, w) && w.stage.Released? && Fitting(w)
    ensures P.Enabled(w, P.Map(Block(o.hdr), Block(o.buf)))
  {
    P.InvReachable(bufSize, w);
    P.PageLane(w.hdr, Block(o.hdr), w.dirty + 1, w.dirty + RING, w.cur);
    P.PageLane(w.buf, Block(o.buf), w.dirty + 1, w.dirty + RING, w.cur);
  }

  lemma BeginEnabled(bufSize: nat, w: P.Rx)
    requires P.Reachable(bufSize, w) && w.stage.Idle? && w.dirty < w.cur
    ensures P.Enabled(w, P.Begin)
  {
    P.InvReachable(bufSize, w);
    P.BeginLanes(w);
  }

  predicate AllPlenty(offers: seq<Offers>) {
    forall k :: 0 <= k < |offers| ==> Sized(offers[k]) && Plenty(offers[k])
  }

  function HdrLens(offers: seq<Offers>): (lens: seq<nat>)
    requires AllPlenty(offers)
    ensures |lens| == |offers|
  {
    seq(|offers|, k requires 0 <= k < |offers| => Block(offers[k].hdr).value)
  }

  function BufLens(offers: seq<Offers>): (lens: seq<nat>)
    requires AllPlenty(offers)
    ensures |lens| == |offers|
  {
    seq(|offers|, k requires 0 <= k < |offers| => Block(offers[k].buf).value)
  }

  lemma BuildNext(slice: nat, lens: seq<nat>, j: nat)
    requires slice > 0 && j < RING && P.Enough(slice, lens)
    ensures var m := P.WithPage(P.Build(slice, lens, j), Some(lens[j]));
      m.Some? && CanCarve(m.value) && P.Build(slice, lens, j + 1) == Carve(m.value, j)
  {
    P.BuildInv(slice, lens, j);
    P.PageLane(P.Build(slice, lens, j), Some(lens[j]), 0, j, 0);
  }

  /** What the constructor builds is the state every run starts from. */
  lemma StartIs(bufSize: nat, offers: seq<Offers>, w: P.Rx)
    requires 0 < bufSize <= PAGE_SIZE && |offers| == RING && AllPlenty(offers)
    requires w.hdr == P.Build(HDR_SLICE, HdrLens(offers), |offers|) && w.buf == P.Build(bufSize, BufLens(offers), |offers|)
    requires |w.own| == RING && (forall i :: 0 <= i < RING ==> w.own[i])
    requires w.cur == w.dirty == w.hw == 0 && w.stage == P.Idle(false)
    ensures w == P.Start(bufSize, HdrLens(offers), BufLens(offers)) && P.Reachable(bufSize, w)
  {
    assert w.own == seq(RING, i => true);
    AtStart(bufSize, HdrLens(offers), BufLens(offers));
  }

  // The loop of mac_rx_desc_init.
  method MapAll(hdr: Slices, buf: Slices, offers: seq<Offers>)
    requires hdr != buf && hdr.slots != buf.slots && hdr.slice == HDR_SLICE && 0 < buf.slice <= PAGE_SIZE
    requires |offers| == RING && AllPlenty(offers)
    requires hdr.View() == P.Build(HDR_SLICE, HdrLens(offers), 0) && buf.View() == P.Build(buf.slice, BufLens(offers), 0)
    modifies hdr, hdr.slots, buf, buf.slots
    ensures hdr.View() == P.Build(HDR_SLICE, HdrLens(offers), |offers|)
    ensures buf.View() == P.Build(buf.slice, BufLens(offers), |offers|)
  {
    ghost var hdrLens, bufLens := HdrLens(offers), BufLens(offers);
    for j := 0 to |offers|
      invariant hdr.View() == P.Build(HDR_SLICE, hdrLens, j) && buf.View() == P.Build(buf.slice, bufLens, j)
    {
      BuildNext(HDR_SLICE, hdrLens, j);
      BuildNext(buf.slice, bufLens, j);
      var ok := MapRxBuffer(hdr, buf, j, offers[j]);
    }
  }

  lemma MapIs(w: P.Rx, o: Offers, ok: bool, hdr: Lane, buf: Lane)
    requires P.Enabled(w, P.Map(Block(o.hdr), Block(o.buf)))
    requires var h, b := P.WithPage(w.hdr, Block(o.hdr)), P.WithPage(w.buf, Block(o.buf));
      && ok == (h.Some? && b.Some?)
      && hdr == (if ok then Carve(h.value, w.dirty % RING) else if h.Some? then h.value else w.hdr)
      && buf == (if ok then Carve(b.value, w.dirty % RING) else w.buf)
    ensures P.Next(w, P.Map(Block(o.hdr), Block(o.buf))) ==
            w.(hdr := hdr, buf := buf, stage := if ok then P.Carved else P.Idle(true))
  {
    assert (w.dirty + RING) % RING == w.dirty % RING == (w.dirty % RING) % RING;
  }

  lemma TakeAt(l: Lane, i: nat)
    requires CanTake(l, i)
    ensures CanTake(l, i % RING) && Take(l, i % RING) == Take(l, i)
  {
  }

  function Emptied(w: P.Rx): P.Rx
    requires P.Enabled(w, P.Begin)
  {
    P.Next(w, P.Begin)
  }

  // The ring after mac_map_rx_buffer on the emptied entry.
  ghost predicate Mapped(w: P.Rx, o: Offers, m: P.Rx)
    requires P.Enabled(w, P.Begin)
  {
    P.Enabled(Emptied(w), P.Map(Block(o.hdr), Block(o.buf))) && m == P.Next(Emptied(w), P.Map(Block(o.hdr), Block(o.buf)))
  }

  lemma EmptyStage(bufSize: nat, w: P.Rx, o: Offers)
    requires P.Reachable(bufSize, w) && Fitting(w) && w.stage.Idle? && w.dirty < w.cur
    ensures P.Enabled(w, P.Begin) && P.Enabled(Emptied(w), P.Map(Block(o.hdr), Block(o.buf)))
    ensures P.Reachable(bufSize, Emptied(w))
  {
    hide P.Reachable;
    BeginEnabled(bufSize, w);
    Onward(bufSize, w, P.Begin);
    MapEnabled(bufSize, Emptied(w), o);
  }

  lemma MapStage(bufSize: nat, w: P.Rx, o: Offers, m: P.Rx)
    requires P.Enabled(w, P.Begin) && P.Reachable(bufSize, Emptied(w)) && Fitting(w) && Mapped(w, o, m)
    ensures P.Reachable(bufSize, m) && Fitting(m) && m.cur == w.cur && m.hw == w.hw && m.dirty == w.dirty
    ensures m.stage.Carved? || m.stage == P.Idle(true)
  {
    hide P.Reachable;
    Onward(bufSize, Emptied(w), P.Map(Block(o.hdr), Block(o.buf)));
  }

  lemma GiveStage(bufSize: nat, m: P.Rx)
    requires P.Reachable(bufSize, m) && m.stage.Carved?
    ensures P.Enabled(m, P.Give) && P.Enabled(P.Next(m, P.Give), P.Bump)
    ensures var u := P.Next(P.Next(m, P.Give), P.Bump);
      && P.Reachable(bufSize, u) && u.hdr == m.hdr && u.buf == m.buf && u.cur == m.cur && u.hw == m.hw
      && u.dirty == m.dirty + 1 && u.stage == P.Idle(false)
  {
    hide P.Reachable;
    Facts(bufSize, m);
    Onward(bufSize, m, P.Give);
    Onward(bufSize, P.Next(m, P.Give), P.Bump);
  }

  lemma DeviceStep(bufSize: nat, w: P.Rx)
    requires P.Reachable(bufSize, w) && P.Enabled(w, P.Fill)
    ensures w.hw < P.OwnEnd(w) && P.Reachable(bufSize, P.Next(w, P.Fill))
  {
    P.InvReachable(bufSize, w);
    P.FillStep(w);
    hide P.Reachable;
    Onward(bufSize, w, P.Fill);
  }

  lemma ReadStep(bufSize: nat, w: P.Rx, take: bool)
    requires P.Reachable(bufSize, w) && w.stage.Idle? && w.cur < w.hw && w.cur - w.dirty < RING
    ensures P.Enabled(w, P.Read(take)) && P.Reachable(bufSize, P.Next(w, P.Read(take)))
  {
    hide P.Reachable;
    Facts(bufSize, w);
    Onward(bufSize, w, P.Read(take));
  }

  // The entries after `n` of them, from index `first` on, have been emptied.
  function Blanked(e: seq<Entry>, first: nat, n: nat): (r: seq<Entry>)
    requires |e| == RING
    ensures |r| == RING
  {
    if n == 0 then e else Blanked(e, first, n - 1)[(first + n - 1) % RING := EMPTY]
  }

  lemma {:induction false} BlankedAt(e: seq<Entry>, first: nat, n: nat, i: nat)
    requires |e| == RING && n <= RING && first <= i < first + RING
    ensures Blanked(e, first, n)[i % RING] == if i < first + n then EMPTY else e[i % RING]
  {
    if n > 0 {
      BlankedAt(e, first, n - 1, i);
      if i < first + n {
        SameSlot(i, first + n - 1);
      } else {
        SameSlot(first + n - 1, i);
      }
    }
  }

  class BufferRing {
    const hdr: Slices
    const buf: Slices
    const own: array<bool>
    var cur: nat          // mac_rx_poll's index
    var dirty: nat        // mac_rx_refresh's
    var entries: seq<Entry>
    var doorbell: nat     // the tail pointer register: an entry's index
    var hw: nat           // the device's own position, which only it uses
    var head: nat         // cur without wrap-around: the descriptors read so far
    ghost var tail: nat   // dirty without wrap-around
    ghost var stage: P.Stage

    ghost const Repr: set<object> := {this, hdr, hdr.slots, buf, buf.slots, own}

    ghost predicate Shaped()
      reads this, hdr, buf
    {
      && hdr != buf && hdr.slots != buf.slots && hdr.Shaped() && buf.Shaped()
      && own.Length == RING && |entries| == RING
    }

    ghost function View(): P.Rx
      reads this`head, this`tail, this`hw, this`stage, hdr, hdr.slots, buf, buf.slots, own
    {
      P.Rx(hdr.View(), buf.View(), own[..], head, tail, hw, stage)
    }

    // The indices wrapped and unwrapped agree.
    ghost predicate Words()
      reads this
    {
      cur == head % WORD32 && dirty == tail % WORD32
    }

    ghost predicate Steady()
      reads this, hdr, buf
    {
      Shaped() && Words()
    }

    ghost predicate Valid()
      reads this, hdr, hdr.slots, buf, buf.slots, own
    {
      Steady() && P.Reachable(buf.slice, View()) && Fitting(View())
    }

    /** mac_rx_desc_init, every allocation succeeding. */
    constructor (bufSize: nat, offers: seq<Offers>)
      requires 0 < bufSize <= PAGE_SIZE && |offers| == RING && AllPlenty(offers)
      ensures Steady() && fresh(Repr) && stage == P.Idle(false) && head == tail == hw == 0
      ensures hdr.View() == P.Build(HDR_SLICE, HdrLens(offers), |offers|)
      ensures buf.View() == P.Build(bufSize, BufLens(offers), |offers|)
      ensures forall i :: 0 <= i < RING ==> own[i] && entries[i] == EMPTY
    {
      hdr := new Slices(HDR_SLICE);
      buf := new Slices(bufSize);
      own := new bool[RING](_ => true);
      entries := seq(RING, _ => EMPTY);
      cur, dirty, doorbell, hw := 0, 0, RING - 1, 0;
      head, tail, stage := 0, 0, P.Idle(false);
      new;
      MapAll(hdr, buf, offers);
    }

    // mac_unmap_desc_data for entry `dirty`
    method Empty()
      requires Steady() && P.Enabled(View(), P.Begin)
      modifies this`stage, this`entries, hdr, hdr.slots, buf, buf.slots
      ensures Steady() && View() == P.Next(old(View()), P.Begin)
      ensures entries == old(entries)[tail % RING := EMPTY]
    {
      ghost var w := View();
      WordRing(tail);
      var i := dirty % RING;
      hdr.UnmapDescData(i);
      assert hdr.View() == Release(w.hdr, w.dirty);
      buf.UnmapDescData(i);
      assert buf.View() == Release(w.buf, w.dirty);
      entries := entries[i := EMPTY];
      stage := P.Released;
      assert View() == w.(hdr := hdr.View(), buf := buf.View(), stage := P.Released);
    }

    // mac_map_rx_buffer for entry `dirty`
    method Map(offers: Offers) returns (ok: bool)
      requires Steady() && Sized(offers) && P.Enabled(View(), P.Map(Block(offers.hdr), Block(offers.buf)))
      modifies this`stage, hdr, hdr.slots, buf, buf.slots
      ensures Steady() && View() == P.Next(old(View()), P.Map(Block(offers.hdr), Block(offers.buf)))
      ensures stage == (if ok then P.Carved else P.Idle(true)) && (Plenty(offers) ==> ok)
    {
      ghost var w := View();
      WordRing(tail);
      ok := MapRxBuffer(hdr, buf, dirty % RING, offers);
      stage := if ok then P.Carved else P.Idle(true);
      MapIs(w, offers, ok, hdr.View(), buf.View());
    }

    // mac_rx_desc_reset: the OWN bit is written last.
    method Give()
      requires Steady() && P.Enabled(View(), P.Give)
      modifies this`stage, own
      ensures View() == P.Next(old(View()), P.Give)
    {
      WordRing(tail);
      own[dirty % RING] := true;
      stage := P.Given;
    }

    method Bump()
      requires Steady() && P.Enabled(View(), P.Bump)
      modifies this`dirty, this`tail, this`stage
      ensures Steady() && View() == P.Next(old(View()), P.Bump)
    {
      WordStep(tail);
      dirty := Inc(dirty);
      tail := tail + 1;
      stage := P.Idle(false);
    }

    // One pass of mac_rx_refresh.
    method RefreshOne(offers: Offers) returns (ok: bool)
      requires Valid() && stage.Idle? && tail < head && Sized(offers)
      modifies this`dirty, this`tail, this`stage, this`entries, hdr, hdr.slots, buf, buf.slots, own
      ensures Valid()
      ensures (Plenty(offers) ==> ok) && stage == P.Idle(!ok)
      ensures tail == old(tail) + (if ok then 1 else 0)
      ensures entries == old(entries)[old(tail) % RING := EMPTY]
    {
      hide P.Reachable;
      ghost var w := View();
      EmptyStage(buf.slice, w, offers);
      Empty();
      ok := Map(offers);
      ghost var m := View();
      MapStage(buf.slice, w, offers, m);
      if ok {
        GiveStage(buf.slice, m);
        Give();
        Bump();
      }
    }

    /** mac_rx_refresh, offered `offers[k]` for the k-th entry it comes to. It
        stops at the first entry it finds no page for, leaving that one blank,
        and otherwise catches up with the reader. */
    method Refresh(offers: seq<Offers>)
      requires Valid() && stage.Idle? && |offers| == head - tail && forall k :: 0 <= k < |offers| ==> Sized(offers[k])
      modifies this`dirty, this`tail, this`stage, this`entries, this`doorbell, hdr, hdr.slots, buf, buf.slots, own
      ensures Valid()
      ensures stage.Idle? && old(tail) <= tail <= head && (AllPlenty(offers) ==> tail == head)
      ensures doorbell == (tail - 1) % WORD32
      ensures entries == Blanked(old(entries), old(tail), tail - old(tail) + if tail < head then 1 else 0)
    {
      hide P.Reachable;
      ghost var first, was := tail, entries;
      var k := 0;
      Gap();
      while dirty != cur
        invariant k == tail - first && first <= tail <= head && (dirty == cur <==> tail == head)
        invariant Valid() && stage.Idle?
        invariant entries == Blanked(was, first, k)
        decreases head - tail
      {
        var ok := RefreshOne(offers[k]);
        if !ok {
          break;
        }
        k := k + 1;
        Gap();
      }
      WordStep(tail);
      doorbell := (dirty - 1) % WORD32;
    }

    // The wrapped indices are equal just when the unwrapped ones are.
    lemma Gap()
      requires Valid()
      ensures dirty == cur <==> tail == head
      ensures (cur - dirty) % WORD32 == head - tail <= RING + 1
    {
      Facts(buf.slice, View());
      WordDist(head, tail);
    }

    // The device completes its next entry, if it has one.
    method Complete() returns (done: bool)
      requires Valid() && stage.Idle?
      modifies this`hw, own
      ensures Valid() && hw == old(hw) + (if done then 1 else 0) && hw <= tail + RING
      ensures done <==> P.Enabled(old(View()), P.Fill)
      ensures done <==> old(hw) < tail + RING
      ensures View() == if done then P.Next(old(View()), P.Fill) else old(View())
    {
      hide P.Reachable;
      ghost var w := View();
      Facts(buf.slice, w);
      StillOwns(buf.slice, w);
      done := own[hw % RING];
      if done {
        DeviceStep(buf.slice, w);
        own[hw % RING] := false;
        hw := hw + 1;
        assert View() == P.Next(w, P.Fill);
      }
    }

    /** What mac_rx_poll does to the ring with a completed entry at `cur`: step
        past it and, if its payload joins a packet, hand the page over. */
    method Consume(take: bool)
      requires Valid() && stage.Idle? && head < hw && head - tail < RING
      modifies this`cur, this`head, buf, buf.slots
      ensures Valid() && head == old(head) + 1
      ensures P.Enabled(old(View()), P.Read(take)) && View() == P.Next(old(View()), P.Read(take))
    {
      hide P.Reachable;
      ghost var w := View();
      ReadStep(buf.slice, w, take);
      WordRing(head);
      var i := cur % RING;
      WordStep(head);
      cur := Inc(cur);
      head := head + 1;
      if take {
        TakeAt(w.buf, w.cur);
        buf.HandOver(i);
      }
      assert View() == w.(cur := w.cur + 1, buf := buf.View());
    }

    // Whether `dev_read` finds the entry at `cur` still with the device.
    method Busy() returns (busy: bool)
      requires Valid() && stage.Idle? && head - tail < RING
      ensures busy <==> head == hw
    {
      hide P.Reachable;
      Facts(buf.slice, View());
      WordRing(head);
      assert P.Own(View(), head) == own[head % RING];
      busy := own[cur % RING];
    }
  }
}
