/** The receive ring shared by the device, which fills entries in order, and
    the driver, which reads them (`mac_rx_poll`) and refreshes them
    (`mac_rx_refresh`) one store at a time. */
module RxProtocol {
  import opened Common
  import opened RxPages
  import opened RxRing

  // Where `mac_rx_refresh` is with entry `dirty`; `blank` says that an earlier
  // attempt emptied the entry and then found no page.
  datatype Stage = Idle(blank: bool) | Released | Carved | Given

  datatype Rx = Rx(hdr: Lane, buf: Lane, own: seq<bool>, cur: nat, dirty: nat, hw: nat, stage: Stage)

  function Own(w: Rx, i: nat): bool
    requires |w.own| == RING
  {
    w.own[i % RING]
  }

  // Live entries are [Lo, Hi); the device's last one is before OwnEnd.
  function Lo(w: Rx): nat { if w.stage == Idle(false) then w.dirty else w.dirty + 1 }

  function Hi(w: Rx): nat { if w.stage.Carved? || w.stage.Given? then w.dirty + RING + 1 else w.dirty + RING }

  function OwnEnd(w: Rx): nat { if w.stage.Given? then w.dirty + RING + 1 else w.dirty + RING }

  datatype Action =
    | Fill                                                   // device: complete the next entry
    | Read(take: bool)                                       // mac_rx_poll: one entry; take: its payload joins a packet
    | Begin                                                  // mac_rx_refresh: empty entry `dirty`
    | Map(hdrLen: Option<nat>, bufLen: Option<nat>)          // its new slices; the pages on offer, if any
    | Give                                                   // OWN bit set
    | Bump                                                   // dirty advanced
    | Drop(page: nat)                                        // a packet with a fragment is freed

  // The lane with a page to cut from, if one can be had.
  function WithPage(l: Lane, len: Option<nat>): Option<Lane> {
    if l.pa.Some? then Some(l) else if len.Some? then Some(Refill(l, len.value)) else None
  }

  predicate Enabled(w: Rx, a: Action) {
    && |w.own| == RING
    && match a
       case Fill => Own(w, w.hw)
       case Read(take) =>
         w.stage.Idle? && !Own(w, w.cur) && w.cur - w.dirty < RING && (take ==> CanTake(w.buf, w.cur))
       case Begin =>
         && w.stage.Idle? && w.dirty != w.cur
         && w.hdr.Shaped() && CanRelease(w.hdr.pages, w.hdr.B(w.dirty))
         && w.buf.Shaped() && CanRelease(w.buf.pages, w.buf.B(w.dirty))
       case Map(hdrLen, bufLen) =>
         && w.stage.Released?
         && (hdrLen.Some? ==> w.hdr.slice <= hdrLen.value) && (bufLen.Some? ==> w.buf.slice <= bufLen.value)
         && (WithPage(w.hdr, hdrLen).Some? ==> CanCarve(WithPage(w.hdr, hdrLen).value))
         && (WithPage(w.buf, bufLen).Some? ==> CanCarve(WithPage(w.buf, bufLen).value))
       case Give => w.stage.Carved?
       case Bump => w.stage.Given?
       case Drop(p) => p < |w.buf.pages| && w.buf.pages[p].frags > 0 && w.buf.pages[p].refs > 0
  }

  // mac_map_rx_buffer
  function MapNext(w: Rx, hdrLen: Option<nat>, bufLen: Option<nat>): Rx
    requires Enabled(w, Map(hdrLen, bufLen))
  {
    var hdr := WithPage(w.hdr, hdrLen);
    if hdr.None? then w.(stage := Idle(true))
    else
      var buf := WithPage(w.buf, bufLen);
      if buf.None? then w.(hdr := hdr.value, stage := Idle(true))
      else w.(hdr := Carve(hdr.value, w.dirty + RING), buf := Carve(buf.value, w.dirty + RING), stage := Carved)
  }

  function Next(w: Rx, a: Action): Rx
    requires Enabled(w, a)
  {
    match a
    case Fill => w.(own := w.own[w.hw % RING := false], hw := w.hw + 1)
    case Read(take) => w.(buf := if take then Take(w.buf, w.cur) else w.buf, cur := w.cur + 1)
    case Begin => w.(hdr := Release(w.hdr, w.dirty), buf := Release(w.buf, w.dirty), stage := Released)
    case Map(hdrLen, bufLen) => MapNext(w, hdrLen, bufLen)
    case Give => w.(own := w.own[w.dirty % RING := true], stage := Given)
    case Bump => w.(dirty := w.dirty + 1, stage := Idle(false))
    case Drop(p) => w.(buf := DropFrag(w.buf, p))
  }

  // --------------------------------------------------------------- start-up

  function BlankSlots(): seq<Buf> { seq(RING, i => NONE) }

  // mac_rx_desc_init with every allocation succeeding: entry j cut from the
  // current page, or from a new one of size `lens[j]`.
  function Build(slice: nat, lens: seq<nat>, n: nat): (l: Lane)
    requires slice > 0 && n <= RING <= |lens|
    ensures l.Shaped() && l.slice == slice && (l.pa.Some? ==> l.pa.value.page < |l.pages|)
  {
    if n == 0 then Lane(slice, None, BlankSlots(), [])
    else
      var l := Build(slice, lens, n - 1);
      Carve(if l.pa.Some? then l else Refill(l, lens[n - 1]), n - 1)
  }

  function Start(bufSize: nat, hdrLens: seq<nat>, bufLens: seq<nat>): Rx
    requires bufSize > 0 && RING <= |hdrLens| && RING <= |bufLens|
  {
    Rx(Build(HDR_SLICE, hdrLens, RING), Build(bufSize, bufLens, RING), seq(RING, i => true), 0, 0, 0, Idle(false))
  }

  // -------------------------------------------------------------- invariant

  ghost predicate Held(l: Lane, from: nat, hi: nat)
    requires l.Shaped()
  {
    forall i: nat {:trigger l.B(i)} :: from <= i < hi ==> l.B(i).pa.Some?
  }

  ghost predicate LaneInv(l: Lane, lo: nat, hi: nat, from: nat) {
    Books(l) && Chain(l, lo, hi) && Held(l, from, hi)
  }

  predicate Ordered(w: Rx) {
    w.dirty <= w.cur <= w.hw <= OwnEnd(w) && (w.stage != Idle(false) ==> w.dirty < w.cur)
  }

  // The device owns exactly the entries it has not completed.
  ghost predicate Owned(w: Rx)
    requires |w.own| == RING
  {
    forall i: nat {:trigger Own(w, i)} :: OwnEnd(w) - RING <= i < OwnEnd(w) ==> (Own(w, i) <==> i >= w.hw)
  }

  ghost predicate Lanes(w: Rx) {
    LaneInv(w.hdr, Lo(w), Hi(w), w.cur) && LaneInv(w.buf, Lo(w), Hi(w), w.cur)
  }

  ghost predicate Inv(w: Rx) {
    |w.own| == RING && Ordered(w) && Owned(w) && Lanes(w)
  }

  lemma BeginLane(l: Lane, dirty: nat, blank: bool, cur: nat)
    requires LaneInv(l, if blank then dirty + 1 else dirty, dirty + RING, cur) && dirty < cur
    ensures CanRelease(l.pages, l.B(dirty))
    ensures LaneInv(Release(l, dirty), dirty + 1, dirty + RING, cur) && Release(l, dirty).B(dirty) == NONE
  {
    ReleaseBooks(l, dirty);
    if blank {
      assert l.B(dirty + RING) == NONE;
      ReleaseBlank(l, dirty);
    } else {
      ReleaseChain(l, dirty, dirty + RING);
      OneSlot(l, Release(l, dirty), dirty, dirty);
    }
  }

  lemma PageLane(l: Lane, len: Option<nat>, lo: nat, hi: nat, from: nat)
    requires LaneInv(l, lo, hi, from) && (len.Some? ==> l.slice <= len.value)
    ensures var m := WithPage(l, len);
      m.Some? ==> LaneInv(m.value, lo, hi, from) && CanCarve(m.value)
  {
    if l.pa.None? && len.Some? {
      RefillBooks(l, len.value);
      RefillChain(l, lo, hi, len.value);
      var v := Refill(l, len.value);
      forall i: nat | from <= i < hi ensures v.B(i).pa.Some? {
        assert l.B(i).pa.Some?;
      }
    }
  }

  lemma CarveLane(l: Lane, dirty: nat, cur: nat)
    requires LaneInv(l, dirty + 1, dirty + RING, cur) && CanCarve(l) && dirty < cur
    ensures LaneInv(Carve(l, dirty + RING), dirty + 1, dirty + RING + 1, cur)
  {
    var hi := dirty + RING;
    assert l.B(hi) == NONE;
    CarveBooks(l, hi);
    CarveChain(l, dirty + 1, hi);
    OneSlot(l, Carve(l, hi), dirty + 1, hi);
  }

  lemma TakeLane(l: Lane, lo: nat, hi: nat, cur: nat)
    requires LaneInv(l, lo, hi, cur) && lo <= cur < hi
    ensures CanTake(l, cur) && LaneInv(Take(l, cur), lo, hi, cur + 1)
  {
    assert InPage(l, cur) && l.B(cur).pa.Some?;
    TakeBooks(l, cur);
    TakeChain(l, lo, hi, cur);
  }

  lemma OwnOne(w: Rx, v: Rx, j: nat, low: nat)
    requires |w.own| == RING == |v.own| && low <= j < low + RING && v.own == w.own[j % RING := v.own[j % RING]]
    ensures forall i: nat {:trigger Own(v, i)} :: low <= i < low + RING && i != j ==> Own(v, i) == Own(w, i)
  {
  }

  // The device finds nothing to do past its last entry.
  lemma NothingToFill(w: Rx)
    requires |w.own| == RING && Ordered(w) && Owned(w) && w.hw == OwnEnd(w)
    ensures !Own(w, w.hw)
  {
    assert Own(w, OwnEnd(w) - RING) == Own(w, w.hw);
  }

  lemma FillOwned(w: Rx)
    requires |w.own| == RING && Ordered(w) && Owned(w) && Enabled(w, Fill)
    ensures w.hw < OwnEnd(w) && Ordered(Next(w, Fill)) && Owned(Next(w, Fill))
  {
    if w.hw == OwnEnd(w) {
      NothingToFill(w);
    }
    var v := Next(w, Fill);
    OwnOne(w, v, w.hw, OwnEnd(w) - RING);
    forall i: nat | OwnEnd(v) - RING <= i < OwnEnd(v) ensures Own(v, i) <==> i >= v.hw {
      assert Own(w, i) <==> i >= w.hw;
    }
  }

  lemma FillStep(w: Rx)
    requires Inv(w) && Enabled(w, Fill)
    ensures w.hw < OwnEnd(w) && Inv(Next(w, Fill))
  {
    FillOwned(w);
    var v := Next(w, Fill);
    assert v.hdr == w.hdr && v.buf == w.buf && Lo(v) == Lo(w) && Hi(v) == Hi(w) && v.cur == w.cur;
  }

  lemma ReadStep(w: Rx, take: bool)
    requires Inv(w) && Enabled(w, Read(take))
    ensures w.cur < w.hw && Inv(Next(w, Read(take)))
  {
    assert Own(w, w.cur) <==> w.cur >= w.hw;
    if take {
      TakeLane(w.buf, Lo(w), Hi(w), w.cur);
    }
    var v := Next(w, Read(take));
    forall i: nat | OwnEnd(v) - RING <= i < OwnEnd(v) ensures Own(v, i) <==> i >= v.hw {
      assert Own(w, i) <==> i >= w.hw;
    }
  }

  lemma OwnedSame(w: Rx, v: Rx)
    requires |w.own| == RING && Owned(w) && v.own == w.own && v.hw == w.hw && OwnEnd(v) == OwnEnd(w)
    ensures Owned(v)
  {
    forall i: nat | OwnEnd(v) - RING <= i < OwnEnd(v) ensures Own(v, i) <==> i >= v.hw {
      assert Own(w, i) <==> i >= w.hw;
    }
  }

  lemma BeginLanes(w: Rx)
    requires Lanes(w) && w.stage.Idle? && w.dirty < w.cur
    ensures CanRelease(w.hdr.pages, w.hdr.B(w.dirty)) && CanRelease(w.buf.pages, w.buf.B(w.dirty))
    ensures LaneInv(Release(w.hdr, w.dirty), w.dirty + 1, w.dirty + RING, w.cur)
    ensures LaneInv(Release(w.buf, w.dirty), w.dirty + 1, w.dirty + RING, w.cur)
  {
    BeginLane(w.hdr, w.dirty, w.stage.blank, w.cur);
    BeginLane(w.buf, w.dirty, w.stage.blank, w.cur);
  }

  lemma BeginStep(w: Rx)
    requires Inv(w) && Enabled(w, Begin)
    ensures Inv(Next(w, Begin))
  {
    BeginLanes(w);
    OwnedSame(w, Next(w, Begin));
  }

  lemma MapLanes(w: Rx, hdrLen: Option<nat>, bufLen: Option<nat>)
    requires Lanes(w) && Enabled(w, Map(hdrLen, bufLen)) && w.dirty < w.cur
    ensures Lanes(MapNext(w, hdrLen, bufLen))
  {
    hide LaneInv, Carve, Refill, CanCarve;
    PageLane(w.hdr, hdrLen, w.dirty + 1, w.dirty + RING, w.cur);
    PageLane(w.buf, bufLen, w.dirty + 1, w.dirty + RING, w.cur);
    if WithPage(w.hdr, hdrLen).Some? && WithPage(w.buf, bufLen).Some? {
      CarveLane(WithPage(w.hdr, hdrLen).value, w.dirty, w.cur);
      CarveLane(WithPage(w.buf, bufLen).value, w.dirty, w.cur);
    }
  }

  lemma MapStep(w: Rx, hdrLen: Option<nat>, bufLen: Option<nat>)
    requires Inv(w) && Enabled(w, Map(hdrLen, bufLen))
    ensures Inv(MapNext(w, hdrLen, bufLen))
  {
    MapLanes(w, hdrLen, bufLen);
    OwnedSame(w, MapNext(w, hdrLen, bufLen));
  }

  lemma GiveStep(w: Rx)
    requires Inv(w) && Enabled(w, Give)
    ensures Inv(Next(w, Give))
  {
    var v := Next(w, Give);
    assert w.dirty % RING == (w.dirty + RING) % RING;
    OwnOne(w, v, w.dirty + RING, w.dirty + 1);
    forall i: nat | OwnEnd(v) - RING <= i < OwnEnd(v) ensures Own(v, i) <==> i >= v.hw {
      assert i < w.dirty + RING ==> (Own(w, i) <==> i >= w.hw);
    }
    assert v.hdr == w.hdr && v.buf == w.buf && Lo(v) == Lo(w) && Hi(v) == Hi(w) && v.cur == w.cur;
  }

  lemma BumpStep(w: Rx)
    requires Inv(w) && Enabled(w, Bump)
    ensures Inv(Next(w, Bump))
  {
    var v := Next(w, Bump);
    OwnedSame(w, v);
    assert v.hdr == w.hdr && v.buf == w.buf && Lo(v) == Lo(w) && Hi(v) == Hi(w) && v.cur == w.cur;
  }

  lemma DropStep(w: Rx, p: nat)
    requires Inv(w) && Enabled(w, Drop(p))
    ensures Inv(Next(w, Drop(p)))
  {
    DropFragBooks(w.buf, p);
    DropChain(w.buf, Lo(w), Hi(w), p);
    var v := Next(w, Drop(p));
    forall i: nat | OwnEnd(v) - RING <= i < OwnEnd(v) ensures Own(v, i) <==> i >= v.hw {
      assert Own(w, i) <==> i >= w.hw;
    }
    forall i: nat | v.cur <= i < Hi(v) ensures v.buf.B(i).pa.Some? {
      assert w.buf.B(i).pa.Some?;
    }
  }

  /** Every step of the device and of the driver keeps the ring in order. */
  lemma Step(w: Rx, a: Action)
    requires Inv(w) && Enabled(w, a)
    ensures Inv(Next(w, a))
  {
    match a
    case Fill => FillStep(w);
    case Read(take) => ReadStep(w, take);
    case Begin => BeginStep(w);
    case Map(hdrLen, bufLen) => MapStep(w, hdrLen, bufLen);
    case Give => GiveStep(w);
    case Bump => BumpStep(w);
    case Drop(p) => DropStep(w, p);
  }

  // ------------------------------------------------------------- every run

  lemma {:induction false} BuildInv(slice: nat, lens: seq<nat>, n: nat)
    requires slice > 0 && n <= RING <= |lens| && forall k :: 0 <= k < |lens| ==> slice <= lens[k]
    ensures LaneInv(Build(slice, lens, n), 0, n, 0)
  {
    if n == 0 {
      var l := Build(slice, lens, 0);
      assert l.pages == [];
      assert forall q :: 0 <= q < RING ==> l.slots[q] == NONE;
    } else {
      var l := Build(slice, lens, n - 1);
      BuildInv(slice, lens, n - 1);
      PageLane(l, Some(lens[n - 1]), 0, n - 1, 0);
      var m := WithPage(l, Some(lens[n - 1])).value;
      assert m.B(n - 1) == NONE;
      CarveBooks(m, n - 1);
      CarveChain(m, 0, n - 1);
      OneSlot(m, Carve(m, n - 1), 0, n - 1);
    }
  }

  // Sizes the page allocator may return: never less than a slice.
  predicate Enough(slice: nat, lens: seq<nat>) {
    RING <= |lens| && forall k :: 0 <= k < |lens| ==> slice <= lens[k]
  }

  lemma StartInv(bufSize: nat, hdrLens: seq<nat>, bufLens: seq<nat>)
    requires bufSize > 0 && Enough(HDR_SLICE, hdrLens) && Enough(bufSize, bufLens)
    ensures Inv(Start(bufSize, hdrLens, bufLens))
  {
    BuildInv(HDR_SLICE, hdrLens, RING);
    BuildInv(bufSize, bufLens, RING);
  }

  ghost predicate Reaches(w: Rx, actions: seq<Action>, v: Rx)
    decreases |actions|
  {
    if actions == [] then w == v
    else Enabled(w, actions[0]) && Reaches(Next(w, actions[0]), actions[1..], v)
  }

  lemma {:induction false} InvRun(w: Rx, actions: seq<Action>, v: Rx)
    requires Inv(w) && Reaches(w, actions, v)
    ensures Inv(v)
    decreases |actions|
  {
    if actions != [] {
      Step(w, actions[0]);
      InvRun(Next(w, actions[0]), actions[1..], v);
    }
  }

  // Reached by some run of some ring of the given payload slice size.
  ghost predicate Reachable(bufSize: nat, v: Rx) {
    exists hdrLens: seq<nat>, bufLens: seq<nat>, actions: seq<Action> ::
      bufSize > 0 && Enough(HDR_SLICE, hdrLens) && Enough(bufSize, bufLens)
      && Reaches(Start(bufSize, hdrLens, bufLens), actions, v)
  }

  lemma InvReachable(bufSize: nat, v: Rx)
    requires Reachable(bufSize, v)
    ensures Inv(v)
  {
    var hdrLens: seq<nat>, bufLens: seq<nat>, actions: seq<Action> :|
      bufSize > 0 && Enough(HDR_SLICE, hdrLens) && Enough(bufSize, bufLens)
      && Reaches(Start(bufSize, hdrLens, bufLens), actions, v);
    StartInv(bufSize, hdrLens, bufLens);
    InvRun(Start(bufSize, hdrLens, bufLens), actions, v);
  }

  // ----------------------------------------------------------- consequences

  /** A buffer that is safe to write to and to read: inside its page, the page
      mapped and alive, and the entry holding a reference of its own. */
  predicate SafeBuffer(l: Lane, i: nat)
    requires l.Shaped()
  {
    var b := l.B(i);
    && b.base < |l.pages|
    && b.off + b.len <= l.pages[b.base].len && b.len == l.slice
    && l.pages[b.base].mapped && l.pages[b.base].refs > 0 && b.pa == Some(b.base)
  }

  /** In every reachable state, both buffers of every entry the device owns,
      and of every entry completed but not yet read, are safe. */
  lemma BuffersSafe(bufSize: nat, w: Rx, i: nat)
    requires Reachable(bufSize, w) && w.cur <= i < OwnEnd(w)
    ensures w.hdr.Shaped() && SafeBuffer(w.hdr, i)
    ensures w.buf.Shaped() && SafeBuffer(w.buf, i)
  {
    InvReachable(bufSize, w);
    assert InPage(w.hdr, i) && InPage(w.buf, i);
    LiveIsMapped(w.hdr, Lo(w), Hi(w), i);
    LiveIsMapped(w.buf, Lo(w), Hi(w), i);
    assert w.hdr.B(i).pa.Some? && w.buf.B(i).pa.Some?;
  }

  /** What the device is about to write to is one of those. */
  lemma DeviceWritesSafely(bufSize: nat, w: Rx)
    requires Reachable(bufSize, w) && Enabled(w, Fill)
    ensures w.cur <= w.hw < OwnEnd(w)
  {
    InvReachable(bufSize, w);
    FillStep(w);
  }

  /** Distinct live entries never share a byte. */
  lemma BuffersDisjoint(bufSize: nat, w: Rx, i: nat, j: nat)
    requires Reachable(bufSize, w) && Lo(w) <= i < j < Hi(w)
    ensures w.buf.Shaped() && (w.buf.B(i).base != w.buf.B(j).base || w.buf.B(i).off + w.buf.B(i).len <= w.buf.B(j).off)
    ensures w.hdr.Shaped() && (w.hdr.B(i).base != w.hdr.B(j).base || w.hdr.B(i).off + w.hdr.B(i).len <= w.hdr.B(j).off)
  {
    InvReachable(bufSize, w);
    if w.buf.B(i).base == w.buf.B(j).base {
      SlicesDisjoint(w.buf, Lo(w), Hi(w), i, j);
    }
    if w.hdr.B(i).base == w.hdr.B(j).base {
      SlicesDisjoint(w.hdr, Lo(w), Hi(w), i, j);
    }
  }

  // In this lane, the entry that unmaps a page is the last live one on it.
  ghost predicate LastOnPage(l: Lane, lo: nat, hi: nat, i: nat)
    requires l.Shaped()
  {
    l.B(i).unmap.Some? ==> forall j: nat :: lo <= j < hi && l.B(j).base == l.B(i).unmap.value ==> j <= i
  }

  lemma LastInLane(l: Lane, lo: nat, hi: nat, i: nat)
    requires Chain(l, lo, hi) && lo <= i < hi
    ensures LastOnPage(l, lo, hi, i)
  {
    assert InPage(l, i);
    if l.B(i).unmap.Some? {
      forall j: nat | lo <= j < hi && l.B(j).base == l.B(i).unmap.value ensures j <= i {
        if i < j {
          PagesAscend(l, lo, hi, i, j);
        }
      }
    }
  }

  /** The entry that unmaps a page is the last one cut from it, so when its
      turn to be refreshed comes no live entry uses the page any more. */
  lemma UnmapsLast(bufSize: nat, w: Rx, i: nat)
    requires Reachable(bufSize, w) && Lo(w) <= i < Hi(w)
    ensures w.hdr.Shaped() && LastOnPage(w.hdr, Lo(w), Hi(w), i)
    ensures w.buf.Shaped() && LastOnPage(w.buf, Lo(w), Hi(w), i)
  {
    InvReachable(bufSize, w);
    LastInLane(w.hdr, Lo(w), Hi(w), i);
    LastInLane(w.buf, Lo(w), Hi(w), i);
  }

  // The entry has taken over the ring's hold on its page exactly if the page
  // has no room for a slice after it.
  predicate UsedUp(l: Lane, i: nat)
    requires l.Shaped()
  {
    var b := l.B(i);
    b.base < |l.pages| && (b.unmap.Some? <==> b.off + 2 * b.len > l.pages[b.base].len)
  }

  /** A page is given up when, and only when, no further slice fits. */
  lemma PagesUsedUp(bufSize: nat, w: Rx, i: nat)
    requires Reachable(bufSize, w) && Lo(w) <= i < Hi(w)
    ensures w.hdr.Shaped() && UsedUp(w.hdr, i)
    ensures w.buf.Shaped() && UsedUp(w.buf, i)
  {
    InvReachable(bufSize, w);
    assert InPage(w.hdr, i) && InPage(w.buf, i);
  }

  predicate AddsUp(l: Lane, p: nat)
    requires p < |l.pages|
  {
    l.pages[p].refs == RingHold(l, p) + AllHolds(l.slots, p) + l.pages[p].frags
  }

  /** References always add up in both lanes, and nobody puts a page it should
      not: the release of entry `dirty` is always possible, and so is a packet's
      of its fragment. */
  lemma ReferencesAddUp(bufSize: nat, w: Rx)
    requires Reachable(bufSize, w)
    ensures forall p :: 0 <= p < |w.hdr.pages| ==> AddsUp(w.hdr, p)
    ensures forall p :: 0 <= p < |w.buf.pages| ==> AddsUp(w.buf, p)
    ensures w.stage.Idle? && w.dirty != w.cur ==> Enabled(w, Begin)
    ensures forall p: nat :: p < |w.buf.pages| ==> (Enabled(w, Drop(p)) <==> w.buf.pages[p].frags > 0)
  {
    InvReachable(bufSize, w);
    forall p | 0 <= p < |w.hdr.pages| ensures AddsUp(w.hdr, p) {
      assert PageBooks(w.hdr, p);
    }
    forall p | 0 <= p < |w.buf.pages| ensures AddsUp(w.buf, p) {
      assert PageBooks(w.buf, p);
    }
    forall p: nat | p < |w.buf.pages| ensures Enabled(w, Drop(p)) <==> w.buf.pages[p].frags > 0 {
      assert AddsUp(w.buf, p);
    }
    if w.stage.Idle? && w.dirty != w.cur {
      BeginLanes(w);
    }
  }

  /** A reader that finds the OWN bit clear has found a completed entry if and
      only if it is less than a whole ring ahead of the refresher. */
  lemma ClearOwnMeansFresh(bufSize: nat, w: Rx)
    requires Reachable(bufSize, w) && w.stage.Idle? && |w.own| == RING && !Own(w, w.cur)
    ensures w.cur < w.hw <==> w.cur - w.dirty < RING
  {
    InvReachable(bufSize, w);
    if w.cur - w.dirty < RING {
      assert Own(w, w.cur) <==> w.cur >= w.hw;
    }
  }

  lemma {:induction false} ReachesThen(w: Rx, a: seq<Action>, v: Rx, b: seq<Action>, u: Rx)
    requires Reaches(w, a, v) && Reaches(v, b, u)
    ensures Reaches(w, a + b, u)
    decreases |a|
  {
    if a == [] {
      assert a + b == b;
    } else {
      ReachesThen(Next(w, a[0]), a[1..], v, b, u);
      assert (a + b)[1..] == a[1..] + b;
    }
  }

  lemma One(w: Rx, a: Action)
    requires Enabled(w, a)
    ensures Reaches(w, [a], Next(w, a))
  {
    assert [a][1..] == [];
    assert Reaches(Next(w, a), [], Next(w, a));
  }

  /** Once a refresh has failed, the entry the reader is at has lost its buffers
      if and only if the reader is a whole ring ahead. */
  lemma EntryLost(bufSize: nat, w: Rx)
    requires Reachable(bufSize, w) && w.stage == Idle(true)
    ensures w.hdr.Shaped() && (w.hdr.B(w.cur) == NONE <==> w.cur - w.dirty == RING)
    ensures w.buf.Shaped() && (w.buf.B(w.cur) == NONE <==> w.cur - w.dirty == RING)
  {
    InvReachable(bufSize, w);
    if w.cur - w.dirty == RING {
      assert w.hdr.B(Hi(w)) == NONE && w.buf.B(Hi(w)) == NONE;
    } else {
      assert w.hdr.B(w.cur).pa.Some? && w.buf.B(w.cur).pa.Some?;
    }
  }

  // Every header page is a single one, as the driver asks for.
  predicate SinglePages(lens: seq<nat>) {
    |lens| == RING && forall k :: 0 <= k < |lens| ==> lens[k] == PAGE_SIZE
  }

  // The page in use after `n` slices from single pages.
  predicate PageAfter(pa: Option<Alloc>, n: nat) {
    if n % 8 == 0 then pa.None? else pa.Some? && pa.value.len == PAGE_SIZE && pa.value.off == n % 8 * HDR_SLICE
  }

  lemma PageNext(l: Lane, n: nat)
    requires l.Shaped() && l.slice == HDR_SLICE && (l.pa.Some? ==> l.pa.value.page < |l.pages|) && PageAfter(l.pa, n)
    ensures PageAfter(Carve(if l.pa.Some? then l else Refill(l, PAGE_SIZE), n).pa, n + 1)
  {
  }

  // Building the ring uses its header pages up.
  lemma {:induction false} HeadersFill(lens: seq<nat>, n: nat)
    requires SinglePages(lens) && n <= RING
    ensures PageAfter(Build(HDR_SLICE, lens, n).pa, n)
  {
    if n > 0 {
      HeadersFill(lens, n - 1);
      PageNext(Build(HDR_SLICE, lens, n - 1), n - 1);
      hide PageAfter, Carve, Refill;
    }
  }

  // A refresh that finds no page: one attempt.
  const FAILING: seq<Action> := [Begin, Map(None, None)]

  /** The k-th turn of a ring whose refreshes fail: the device completes an
      entry, the driver tries to refresh once more than MAX_DIRTY entries are
      used up, and reads. */
  function FailingTurn(k: nat): seq<Action> {
    [Fill] + (if k > MAX_DIRTY then FAILING else []) + [Read(false)]
  }

  function FailingTurns(n: nat): seq<Action> {
    if n == 0 then [] else FailingTurns(n - 1) + FailingTurn(n - 1)
  }

  // After `n` such turns.
  ghost predicate Starving(w: Rx, n: nat) {
    && Inv(w) && w.hdr.pa.None? && w.dirty == 0 && w.cur == w.hw == n
    && w.stage == Idle(n > MAX_DIRTY + 1)
  }

  lemma AttemptFails(w: Rx)
    requires Inv(w) && w.stage.Idle? && w.dirty < w.cur && w.hdr.pa.None?
    ensures Enabled(w, Begin) && Enabled(Next(w, Begin), Map(None, None))
    ensures var v := Next(Next(w, Begin), Map(None, None));
      Inv(v) && Reaches(w, FAILING, v) && v.hdr.pa.None? && v.cur == w.cur && v.hw == w.hw && v.dirty == w.dirty && v.stage == Idle(true)
  {
    BeginLanes(w);
    BeginStep(w);
    hide Inv, LaneInv, Held;
    var e := Next(w, Begin);
    PageLane(e.buf, None, e.dirty + 1, e.dirty + RING, e.cur);
    MapStep(e, None, None);
    One(w, Begin);
    One(e, Map(None, None));
    ReachesThen(w, [Begin], e, [Map(None, None)], Next(e, Map(None, None)));
  }

  lemma StarvingFill(w: Rx, n: nat)
    requires Starving(w, n) && n < RING
    ensures Enabled(w, Fill)
    ensures var v := Next(w, Fill);
      Inv(v) && v.hdr.pa.None? && v.dirty == 0 && v.cur == n && v.hw == n + 1 && v.stage == w.stage
  {
    assert Own(w, w.hw);
    FillStep(w);
  }

  lemma StarvingRead(w: Rx, n: nat)
    requires Inv(w) && w.hdr.pa.None? && w.dirty == 0 && w.cur == n < RING && w.hw == n + 1 && w.stage == Idle(n > MAX_DIRTY)
    ensures Enabled(w, Read(false)) && Starving(Next(w, Read(false)), n + 1)
  {
    assert Own(w, w.cur) <==> w.cur >= w.hw;
    ReadStep(w, false);
  }

  lemma StarvingTurn(w: Rx, n: nat) returns (v: Rx)
    requires Starving(w, n) && n < RING
    ensures Starving(v, n + 1) && Reaches(w, FailingTurn(n), v)
  {
    StarvingFill(w, n);
    var f := Next(w, Fill);
    One(w, Fill);
    var r := f;
    hide Inv, Next, Enabled, Reaches;
    if n > MAX_DIRTY {
      AttemptFails(f);
      r := Next(Next(f, Begin), Map(None, None));
      ReachesThen(w, [Fill], f, FAILING, r);
    } else {
      assert [Fill] + [] == [Fill];
    }
    StarvingRead(r, n);
    v := Next(r, Read(false));
    One(r, Read(false));
    ReachesThen(w, [Fill] + (if n > MAX_DIRTY then FAILING else []), r, [Read(false)], v);
  }

  lemma {:induction false} Starve(w: Rx, n: nat) returns (v: Rx)
    requires Starving(w, 0) && n <= RING
    ensures Starving(v, n) && Reaches(w, FailingTurns(n), v)
  {
    if n == 0 {
      v := w;
    } else {
      hide Starving, Reaches, FailingTurn;
      var u := Starve(w, n - 1);
      v := StarvingTurn(u, n - 1);
      ReachesThen(w, FailingTurns(n - 1), u, FailingTurn(n - 1), v);
    }
  }

  /** That whole ring can be used up. From every start there is a run, with a
      failing refresh before every read that calls for one, after which the
      reader finds OWN clear on an entry it has already read, and which no
      longer has a page to copy a header from. */
  lemma StaleEntry(bufSize: nat, hdrLens: seq<nat>, bufLens: seq<nat>) returns (v: Rx)
    requires bufSize > 0 && SinglePages(hdrLens) && Enough(bufSize, bufLens)
    ensures Reaches(Start(bufSize, hdrLens, bufLens), FailingTurns(RING) + FAILING, v)
    ensures v.stage == Idle(true) && |v.own| == RING && !Own(v, v.cur) && v.cur == v.hw
    ensures v.hdr.Shaped() && v.hdr.B(v.cur) == NONE && v.buf.Shaped() && v.buf.B(v.cur) == NONE
  {
    var start := Start(bufSize, hdrLens, bufLens);
    StartsFull(bufSize, hdrLens, bufLens);
    hide Start, Inv, Next, Enabled, Reaches, FailingTurns;
    var u := Starve(start, RING);
    v := FailsAtEnd(u);
    ReachesThen(start, FailingTurns(RING), u, FAILING, v);
  }

  lemma StartsFull(bufSize: nat, hdrLens: seq<nat>, bufLens: seq<nat>)
    requires bufSize > 0 && SinglePages(hdrLens) && Enough(bufSize, bufLens)
    ensures Starving(Start(bufSize, hdrLens, bufLens), 0)
  {
    StartInv(bufSize, hdrLens, bufLens);
    HeadersFill(hdrLens, RING);
    hide Inv, Build;
  }

  lemma FailsAtEnd(u: Rx) returns (v: Rx)
    requires Starving(u, RING)
    ensures Reaches(u, FAILING, v) && v.stage == Idle(true) && |v.own| == RING && !Own(v, v.cur) && v.cur == v.hw
    ensures v.hdr.Shaped() && v.hdr.B(v.cur) == NONE && v.buf.Shaped() && v.buf.B(v.cur) == NONE
  {
    AttemptFails(u);
    v := Next(Next(u, Begin), Map(None, None));
    hide Next, Enabled, Reaches;
    assert Own(v, v.dirty) <==> v.dirty >= v.hw;
    assert v.hdr.B(Hi(v)) == NONE && v.buf.B(Hi(v)) == NONE;
  }
}
