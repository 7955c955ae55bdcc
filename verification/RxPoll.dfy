/** `mac_rx_poll` on one ring: packets put together from descriptors as the
    device completes them, a packet in progress saved when a poll ends and
    resumed by the next. Whichever page allocations fail, and until the reader
    is a whole ring ahead, the packets delivered depend on the stream of
    descriptors alone, not on how it was polled. */
module RxPoll {
  import opened Common
  import opened RxPages
  import opened RxRing
  import opened RxPackets
  import opened RxBuffers
  import opened RxRefresh
  import P = RxProtocol

  datatype Step = Blocked | More | Ended

  lemma PlentyExists(n: nat) returns (offers: seq<Offers>)
    ensures |offers| == n && AllPlenty(offers)
  {
    var o := Offers(Offer([true], true), Offer([true, true, true], true));
    assert Largest(o.hdr.free, 1) == Some(0) && Largest(o.buf.free, 3) == Some(2);
    offers := seq(n, _ => o);
  }

  lemma PlentySized(offers: seq<Offers>)
    requires AllPlenty(offers)
    ensures forall k :: 0 <= k < |offers| ==> Sized(offers[k])
  {
  }

  predicate BlankAt(e: seq<Entry>, i: nat) {
    |e| == RING && e[i % RING] == EMPTY
  }

  // A refresh from index `first` that ended at `tail` leaves the reader's own
  // entry alone, and those beyond it empty for one more lap.
  lemma Refreshed(e: seq<Entry>, first: nat, tail: nat, head: nat)
    requires |e| == RING && first <= tail <= head < first + RING
    requires forall i: nat :: head < i < first + RING ==> BlankAt(e, i)
    ensures var v := Blanked(e, first, tail - first + if tail < head then 1 else 0);
      v[head % RING] == e[head % RING] && forall i: nat :: head < i < tail + RING ==> BlankAt(v, i)
  {
    var n := tail - first + if tail < head then 1 else 0;
    var v := Blanked(e, first, n);
    BlankedAt(e, first, n, head);
    forall i: nat | head < i < tail + RING ensures BlankAt(v, i) {
      if i < first + RING {
        BlankedAt(e, first, n, i);
        assert BlankAt(e, i);
      } else {
        NextLap(i - RING);
        BlankedAt(e, first, n, i - RING);
      }
    }
  }

  class PollQueue {
    const ring: BufferRing
    const desc: array<Desc>        // the descriptors, as the device wrote them back
    const cfg: Config
    var info: Info                 // ring->pkt_info
    var delivered: seq<Packet>     // given to the network stack
    ghost var stream: seq<Desc>    // everything the device has completed

    ghost const Repr: set<object> :=
      {this, desc, ring, ring.hdr, ring.hdr.slots, ring.buf, ring.buf.slots, ring.own}

    // What has been read of the stream.
    ghost function Seen(): seq<Desc>
      reads this`stream, ring
    {
      if ring.head <= |stream| then stream[..ring.head] else stream
    }

    ghost predicate Written(i: nat)
      reads this`stream, desc
    {
      desc.Length == RING && (i < |stream| ==> desc[i % RING] == stream[i])
    }

    ghost predicate Sound()
      reads this`stream, desc, ring, ring.hdr, ring.hdr.slots, ring.buf, ring.buf.slots, ring.own
    {
      && ring.Valid() && ring.stage.Idle? && ring.hw == |stream| && AllWire(stream)
      && ring.tail <= ring.head <= ring.hw <= ring.tail + RING
      && desc.Length == RING && |ring.entries| == RING
      && (forall i: nat :: ring.head <= i < ring.hw ==> Written(i))
      && (forall i: nat :: ring.head < i < ring.tail + RING ==> BlankAt(ring.entries, i))
    }

    /** What has been delivered is what the descriptors read so far amount to. */
    ghost predicate Told()
      reads this, desc, ring, ring.hdr, ring.hdr.slots, ring.buf, ring.buf.slots, ring.own
    {
      Sound() && delivered == Delivered(cfg, Seen())
    }

    /** What holds whenever the loop comes round, until the reader is a whole
        ring ahead. */
    ghost predicate Core()
      reads this, desc, ring, ring.hdr, ring.hdr.slots, ring.buf, ring.buf.slots, ring.own
    {
      Told() && ring.head - ring.tail < RING && ring.entries[ring.head % RING].hdrLen == 0
    }

    // The loop's variables are those of the packet in progress.
    ghost predicate Holding(p: Partial)
      reads this, ring
    {
      p == PartialOf(Start(Seen()), Pending(Seen())) && info == InfoOf(Pending(Seen()))
    }

    /** Between polls a packet in progress is saved in the next entry, and no
        other packet is. */
    ghost predicate Resting()
      reads this, desc, ring, ring.hdr, ring.hdr.slots, ring.buf, ring.buf.slots, ring.own
    {
      && Core()
      && ring.entries[ring.head % RING] ==
         (if Pending(Seen()) == [] then EMPTY else Entry(Some(PartialOf(Start(Seen()), Pending(Seen()))), 0))
      && (Pending(Seen()) != [] ==> info == InfoOf(Pending(Seen())))
    }

    constructor (ring: BufferRing, cfg: Config)
      requires ring.Valid() && ring.stage.Idle? && ring.head == ring.tail == ring.hw == 0
      requires forall i :: 0 <= i < RING ==> ring.entries[i] == EMPTY
      ensures Resting() && this.ring == ring && stream == [] && delivered == [] && fresh(desc)
    {
      this.ring, this.cfg := ring, cfg;
      desc := new Desc[RING](_ => Desc(0, false, None, None, Status(false, 0, 0), false));
      info, delivered, stream := BLANK, [], [];
    }

    // The device completes an entry, if it still has one.
    method Complete(d: Desc) returns (done: bool)
      requires Core() && Wire(d)
      modifies this`stream, desc, ring`hw, ring.own
      ensures Core() && Seen() == old(Seen())
      ensures stream == if done then old(stream) + [d] else old(stream)
      ensures done <==> old(ring.hw) < ring.tail + RING
      ensures old(Resting()) ==> Resting()
    {
      hide P.Reachable;
      ghost var seen := Seen();
      done := ring.Complete();
      if done {
        desc[(ring.hw - 1) % RING] := d;
        stream := stream + [d];
        assert Seen() == seen;
        forall i: nat | ring.head <= i < ring.hw ensures Written(i) {
          if i < ring.hw - 1 {
            assert old(Written(i));
            SameSlot(i, ring.hw - 1);
          }
        }
        forall i: nat | ring.head < i < ring.tail + RING ensures BlankAt(ring.entries, i) {
          assert BlankAt(old(ring.entries), i);
        }
      }
    }

    // The device at work while the driver runs: it completes any number of
    // the packets' descriptors `ds`, in order.
    method Device(ds: seq<Desc>) returns (n: nat)
      requires Core() && AllWire(ds)
      modifies this`stream, desc, ring`hw, ring.own
      ensures Core() && Seen() == old(Seen()) && n <= |ds| && stream == old(stream) + ds[..n]
    {
      hide P.Reachable;
      n := 0;
      while n < |ds|
        invariant Core() && Seen() == old(Seen()) && n <= |ds| && stream == old(stream) + ds[..n]
      {
        var busy: bool := *;
        if busy {
          break;
        }
        assert Wire(ds[n]);
        var done := Complete(ds[n]);
        if !done {
          break;
        }
        n := n + 1;
        assert ds[..n] == ds[..n - 1] + [ds[n - 1]];
      }
    }

    // mac_create_skb; `take` says that the payload page joins the packet.
    static method CreateSkb(i: nat, hdrLen: nat, len: nat, room: bool) returns (skb: Option<Skb>, take: bool)
      ensures skb == if room then Some(NewSkb(i, hdrLen, len)) else None
      ensures room ==> skb.value.parts[0] == Header(i, Min(512, if hdrLen == 0 then len else hdrLen))
      ensures take <==> room && Wrap(len - Copied(hdrLen, len)) != 0
    {
      if !room {
        return None, false;
      }
      var copy := if hdrLen != 0 then hdrLen else len;
      copy := Min(HDR_SLICE, copy);
      var s := Skb(copy, [Header(i, copy)], 0);
      var rest := Wrap(len - copy);
      if rest != 0 {
        s := Skb(Wrap(s.len + rest), s.parts + [Payload(i, rest)], s.protocol);
        assert s.parts == [Header(i, copy), Payload(i, rest)];
      }
      return Some(s), rest != 0;
    }

    // The data of one descriptor joins the packet.
    static method AddData(p: Partial, i: nat, d: Desc, hdrLen: nat) returns (q: Partial, take: bool)
      requires hdrLen == HdrLen(d)
      ensures q == Added(p, i, d)
      ensures take <==> Share(d, p.len) != 0 && (p.skb.None? ==> d.room && Wrap(Share(d, p.len) - Copied(hdrLen, Share(d, p.len))) != 0)
    {
      var share := Wrap(d.len - p.len);
      q, take := p.(len := Wrap(p.len + share)), false;
      if share != 0 && p.skb.None? {
        var skb;
        skb, take := CreateSkb(i, hdrLen, share, d.room);
        q := q.(skb := skb);
        if skb.None? {
          q := q.(error := true);
        }
      } else if share != 0 {
        var s := p.skb.value;
        q := q.(skb := Some(Skb(Wrap(s.len + share), s.parts + [Payload(i, share)], s.protocol)));
        take := true;
      }
    }

    // mac_dev_read's part in pkt_info
    method ReadAttributes(d: Desc)
      modifies this`info
      ensures info == ReadInfo(cfg, old(info), d)
    {
      if d.hash.Some? {
        info := info.(hash := d.hash);
      }
      if !d.last {
        info := info.(incomplete := true);
        return;
      }
      info := info.(incomplete := false);
      if cfg.rxcsum {
        info := info.(csum := true);
      }
      var err, etlt := d.status.es, d.status.etlt;
      if !err || etlt == 0 {
        if etlt == 9 && cfg.vlanRx {
          info := info.(tag := Some(d.status.ovt));
        }
      } else if etlt == 5 || etlt == 6 {
        info := info.(csum := false);
      } else {
        info := info.(errors := true);
      }
    }

    // The end of the loop body: deliver the packet unless it is too long.
    method Finish(p: Partial)
      modifies this`delivered
      ensures delivered == old(delivered) + AsSeq(Verdict(cfg, p, info))
    {
      if p.skb.None? {
        return;
      }
      var s := p.skb.value;
      var limit := cfg.mtu + ETH_HLEN;
      if !cfg.vlanRx && s.protocol == ETH_P_8021Q {
        limit := limit + VLAN_HLEN;
      }
      if s.len > limit {
        return;
      }
      delivered := delivered + [Packet(s.parts, s.len, info.csum, info.tag, info.hash)];
    }

    // The device at work between polls.
    method Arrive(ds: seq<Desc>) returns (n: nat)
      requires Resting() && AllWire(ds)
      modifies Repr
      ensures Resting() && Seen() == old(Seen()) && n <= |ds| && stream == old(stream) + ds[..n]
    {
      n := Device(ds);
    }

    // The ring steps past the descriptor at `cur`.
    method Pass(take: bool)
      requires Sound() && ring.head < ring.hw && ring.head - ring.tail < RING
      modifies ring`cur, ring`head, ring.buf, ring.buf.slots
      ensures Sound() && Seen() == old(Seen()) + [stream[old(ring.head)]]
      ensures P.Enabled(old(ring.View()), P.Read(take)) && ring.View() == P.Next(old(ring.View()), P.Read(take))
      ensures ring.tail == old(ring.tail) && (ring.head - ring.tail < RING ==> ring.entries[ring.head % RING] == EMPTY)
    {
      hide P.Reachable;
      ghost var i := ring.head;
      assert i + 1 < ring.tail + RING ==> BlankAt(ring.entries, i + 1);
      ring.Consume(take);
      assert stream[..i + 1] == stream[..i] + [stream[i]];
      forall j: nat | ring.head <= j < ring.hw ensures Written(j) {
        assert old(Written(j));
      }
      forall j: nat | ring.head < j < ring.tail + RING ensures BlankAt(ring.entries, j) {
        assert BlankAt(old(ring.entries), j);
      }
    }

    // The header length mac_dev_read leaves in the entry.
    method ReadHeader() returns (d: Desc, hdrLen: nat)
      requires Core() && ring.head < ring.hw
      modifies ring`entries
      ensures d == stream[ring.head] && hdrLen == HdrLen(d)
      ensures Sound() && Wire(d) && AllWire(Seen())
    {
      WordRing(ring.head);
      assert Written(ring.head);
      var i := ring.cur % RING;
      d := desc[i];
      if d.split.Some? {
        ring.entries := ring.entries[i := ring.entries[i].(hdrLen := d.split.value)];
      }
      hdrLen := ring.entries[i].hdrLen;
      assert Wire(stream[ring.head]);
      forall j: nat | ring.head < j < ring.tail + RING ensures BlankAt(ring.entries, j) {
        assert BlankAt(old(ring.entries), j);
        SameSlot(ring.head, j);
      }
    }

    /** One descriptor read, from mac_dev_read to the end of the loop body. The
        entry's page changes hands exactly if its payload joins the packet. */
    method ReadDesc(p: Partial) returns (q: Partial, ended: bool)
      requires Core() && Holding(p) && ring.head < ring.hw
      modifies this`info, this`delivered, ring`entries, ring`cur, ring`head, ring.buf, ring.buf.slots
      ensures Told() && Seen() == old(Seen()) + [stream[old(ring.head)]]
      ensures ended == stream[old(ring.head)].last && info.incomplete == !ended && (!ended ==> Holding(q))
      ensures var read := P.Read(TakesPayload(p, stream[old(ring.head)]));
        P.Enabled(old(ring.View()), read) && ring.View() == P.Next(old(ring.View()), read)
      ensures ring.tail == old(ring.tail) && ring.head == old(ring.head) + 1
      ensures ring.head - ring.tail < RING ==> Core() && ring.entries[ring.head % RING] == EMPTY
    {
      hide P.Enabled, P.Next;
      hide P.Reachable, PartialOf, Added, ReadInfo, Verdict, Delivered, Start, Pending;
      ghost var s, w := Seen(), ring.View();
      var d, hdrLen := ReadHeader();
      assert ring.View() == w;
      ReadAttributes(d);
      Known(s, d);
      ended, q := !info.incomplete, p;
      var take := false;
      if !(info.incomplete && p.error) && !(p.error || info.errors) {
        q, take := AddData(p, ring.head, d, hdrLen);
        if ended {
          Finish(q);
        }
      }
      assert take == TakesPayload(p, d);
      Pass(take);
    }

    // What reading descriptor `d` after `s` amounts to.
    lemma {:induction false} Known(s: seq<Desc>, d: Desc)
      requires AllWire(s) && Wire(d)
      ensures var g, base := Pending(s), Start(s);
        && var p, i := PartialOf(base, g), ReadInfo(cfg, InfoOf(g), d);
        && i.incomplete == !d.last && i.errors == (d.last && Bad(d)) && (!d.last ==> i == InfoOf(Pending(s + [d])))
        && Start(s) + |g| == |s|
        && (!d.last ==> PartialOf(Start(s + [d]), Pending(s + [d])) == if p.error then p else Added(p, |s|, d))
        && Delivered(cfg, s + [d]) ==
           Delivered(cfg, s) + if d.last && !p.error && !i.errors then AsSeq(Verdict(cfg, Added(p, |s|, d), i)) else []
    {
      var g, base := Pending(s), Start(s);
      ErrorIs(base, g);
      hide PartialOf, Added, ReadInfo, Verdict, Outcome, Starved, Delivered, Done;
      Snoc(cfg, s, d);
      ReadInfoIs(cfg, base, g, d);
      if d.last {
        VerdictIs(cfg, base, g, d);
      } else if Starved(g, |g|) {
        StarvedStays(base, g, d);
      } else {
        AddedIs(base, g, d);
      }
    }

    /** The body of the read_again loop: some completions happen, the ring is
        refreshed if too many entries are used up, and the next descriptor is
        read if there is one. `plenty` says that every page allocation succeeds;
        otherwise any of them may fail. */
    method ReadAgain(p: Partial, ds: seq<Desc>, plenty: bool) returns (q: Partial, step: Step, n: nat)
      requires Core() && Holding(p) && AllWire(ds)
      modifies Repr
      ensures Told() && (ring.head - ring.tail < RING ==> Core()) && n <= |ds| && stream == old(stream) + ds[..n]
      ensures step.Blocked? ==> Core() && Seen() == old(Seen()) == stream && q == p && info == old(info)
      ensures step.Blocked? ==> ring.entries[ring.head % RING] == old(ring.entries[ring.head % RING])
      ensures !step.Blocked? ==> ring.head == old(ring.head) + 1 && Seen() == old(Seen()) + [stream[old(ring.head)]]
      ensures !step.Blocked? ==> step.Ended? == stream[old(ring.head)].last && info.incomplete == step.More?
      ensures !step.Blocked? && ring.head - ring.tail < RING ==> ring.entries[ring.head % RING] == EMPTY
      ensures step.More? ==> Holding(q)
      ensures plenty ==> ring.head - ring.tail <= MAX_DIRTY + 1
    {
      hide P.Reachable, PartialOf, Added, ReadInfo, Verdict, Delivered, Start, Pending;
      n := Device(ds);
      Tidy(plenty);
      q, step := p, Blocked;
      var busy := ring.Busy();
      if !busy {
        var ended;
        q, ended := ReadDesc(p);
        step := if ended then Ended else More;
      }
    }

    // mac_rx_refresh, once more than MAX_DIRTY entries are used up.
    method Tidy(plenty: bool)
      requires Core()
      modifies ring`dirty, ring`tail, ring`stage, ring`entries, ring`doorbell, ring.hdr, ring.hdr.slots, ring.buf, ring.buf.slots, ring.own
      ensures Core() && old(ring.tail) <= ring.tail && (plenty ==> ring.head - ring.tail <= MAX_DIRTY)
      ensures ring.entries[ring.head % RING] == old(ring.entries[ring.head % RING])
    {
      hide P.Reachable;
      ring.Gap();
      if (ring.cur - ring.dirty) % WORD32 > MAX_DIRTY {
        var w := (ring.cur - ring.dirty) % WORD32;
        var offers := AnyOffers(w, plenty);
        ghost var e, first := ring.entries, ring.tail;
        ring.Refresh(offers);
        Refreshed(e, first, ring.tail, ring.head);
        forall i: nat | ring.head <= i < ring.hw ensures Written(i) {
          assert old(Written(i));
        }
      }
    }

    // Whatever the kernel may offer.
    static method AnyOffers(n: nat, plenty: bool) returns (offers: seq<Offers>)
      ensures |offers| == n && (forall k :: 0 <= k < |offers| ==> Sized(offers[k])) && (plenty ==> AllPlenty(offers))
    {
      ghost var some := PlentyExists(n);
      PlentySized(some);
      offers :| |offers| == n && (forall k :: 0 <= k < |offers| ==> Sized(offers[k])) && (plenty ==> AllPlenty(offers));
    }

    lemma Bounds()
      requires Told()
      ensures ring.head <= |stream| && |ring.entries| == RING
      ensures (ring.cur - ring.dirty) % WORD32 == ring.head - ring.tail <= RING
    {
      hide P.Reachable;
      ring.Gap();
    }

    // Round the read_again loop until a packet ends, nothing is left, or the
    // ring is used up.
    method ReadPacket(p: Partial, ds: seq<Desc>, plenty: bool) returns (q: Partial, ended: bool, spent: bool, received: nat, n: nat)
      requires Core() && Holding(p) && AllWire(ds)
      modifies Repr
      ensures Told() && n <= |ds| && stream == old(stream) + ds[..n]
      ensures spent == (ring.head - ring.tail == RING) && (!spent ==> Core())
      ensures received == 0 ==> !ended && !spent && Seen() == old(Seen()) && info == old(info)
      ensures received == 0 ==> ring.entries[ring.head % RING] == old(ring.entries[ring.head % RING])
      ensures received > 0 && !spent ==> ring.entries[ring.head % RING] == EMPTY && info.incomplete == !ended
      ensures Done(Seen()) == Done(old(Seen())) + if ended then 1 else 0
      ensures ended ==> Pending(Seen()) == []
      ensures !ended && !spent ==> Seen() == stream && Holding(q) && (received > 0 ==> Pending(Seen()) != [])
      ensures plenty ==> ring.head - ring.tail <= MAX_DIRTY + 1
    {
      hide Sound, PartialOf, Delivered, Start, Pending, Done, InfoOf, P.Reachable;
      q, received, n, spent := p, 0, 0, false;
      ghost var start := Seen();
      Bounds();
      while true
        invariant ring.head <= |stream| && |ring.entries| == RING && !spent
        invariant Core() && Holding(q) && n <= |ds| && stream == old(stream) + ds[..n]
        invariant Done(Seen()) == Done(start)
        invariant received == 0 ==> Seen() == start && info == old(info) && ring.entries[ring.head % RING] == old(ring.entries[ring.head % RING])
        invariant received > 0 ==> ring.entries[ring.head % RING] == EMPTY && info.incomplete && Pending(Seen()) != []
        decreases |ds| - n + |stream| - ring.head
      {
        var step, k;
        ghost var s := Seen();
        AllWireDrop(ds, n);
        q, step, k := ReadAgain(q, ds[n..], plenty);
        Bounds();
        TakeMore(old(stream), ds, n, k);
        n := n + k;
        if step.Blocked? {
          ended := false;
          return;
        }
        Snoc(cfg, s, Seen()[|s|]);
        received := received + 1;
        ended, spent := step.Ended?, (ring.cur - ring.dirty) % WORD32 == RING;
        if ended || spent {
          return;
        }
      }
    }

    lemma TakeMore(a: seq<Desc>, ds: seq<Desc>, n: nat, k: nat)
      requires n <= |ds| && k <= |ds[n..]|
      ensures (a + ds[..n]) + ds[n..][..k] == a + ds[..n + k]
    {
    }

    lemma AllWireDrop(ds: seq<Desc>, n: nat)
      requires AllWire(ds) && n <= |ds|
      ensures AllWire(ds[n..])
    {
    }

    // Nothing read yet of the next packet.
    lemma NothingYet()
      requires Pending(Seen()) == []
      ensures PartialOf(Start(Seen()), Pending(Seen())) == FRESH && InfoOf(Pending(Seen())) == BLANK
    {
    }

    // The variables a packet starts with: those saved in the next entry, if
    // this is the poll's first packet and there are any.
    method Restore(first: bool) returns (p: Partial)
      requires Core() && (first ==> Resting()) && (!first ==> Pending(Seen()) == [])
      modifies this`info
      ensures Core() && Holding(p) && (first ==> Resting())
    {
      hide P.Reachable, PartialOf, Start, Delivered;
      WordRing(ring.head);
      var entry := ring.entries[ring.cur % RING];
      if first && entry.saved.Some? {
        p := entry.saved.value;
      } else {
        info, p := BLANK, FRESH;
        NothingYet();
      }
    }

    method Save(p: Partial)
      requires Core() && Holding(p) && Pending(Seen()) != [] && ring.entries[ring.head % RING] == EMPTY
      modifies ring`entries
      ensures Resting() && Seen() == old(Seen())
    {
      hide P.Reachable, PartialOf, Start, Delivered;
      WordRing(ring.head);
      var i := ring.cur % RING;
      ring.entries := ring.entries[i := ring.entries[i].(saved := Some(p))];
      forall j: nat | ring.head < j < ring.tail + RING ensures BlankAt(ring.entries, j) {
        assert BlankAt(old(ring.entries), j);
        SameSlot(ring.head, j);
      }
    }

    // No packet in progress and none saved.
    ghost predicate Between()
      reads this, ring
    {
      |ring.entries| == RING && Pending(Seen()) == [] && ring.entries[ring.head % RING] == EMPTY
    }

    // One packet: the variables restored or reset, then the descriptors read.
    method PollOne(first: bool, ds: seq<Desc>, plenty: bool) returns (p: Partial, ended: bool, spent: bool, received: nat, n: nat)
      requires Core() && AllWire(ds) && (if first then Resting() else Between())
      modifies Repr
      ensures Told() && n <= |ds| && stream == old(stream) + ds[..n]
      ensures spent == (ring.head - ring.tail == RING) && (!spent ==> Core())
      ensures Done(Seen()) == Done(old(Seen())) + if ended then 1 else 0
      ensures received == 0 ==> !ended && !spent && (if first then Resting() else Between())
      ensures ended && !spent ==> Between() && !info.incomplete
      ensures !ended && !spent ==> Seen() == stream && Holding(p)
      ensures !ended && !spent && received > 0 ==> info.incomplete && Pending(Seen()) != [] && ring.entries[ring.head % RING] == EMPTY
      ensures plenty ==> ring.head - ring.tail <= MAX_DIRTY + 1
    {
      hide Sound, PartialOf, Delivered, Start, Pending, Done;
      p := Restore(first);
      p, ended, spent, received, n := ReadPacket(p, ds, plenty);
      Bounds();
    }

    /** mac_rx_poll with a budget of packets, while the device completes some
        more descriptors, a prefix of `ds`. Whatever the split into polls, and
        whichever allocations fail, what is delivered is `Delivered` of the
        descriptors read, and a poll that ends short of its budget has read
        everything there was. The model stops, `spent`, when the reader is a
        whole ring ahead; with every allocation succeeding it never gets more
        than MAX_DIRTY + 1 ahead. */
    method Poll(budget: nat, ds: seq<Desc>, plenty: bool) returns (count: nat, spent: bool, n: nat)
      requires Resting() && AllWire(ds)
      modifies Repr
      ensures Told() && n <= |ds| && stream == old(stream) + ds[..n]
      ensures spent == (ring.head - ring.tail == RING) && (!spent ==> Resting())
      ensures count <= budget && count == Done(Seen()) - Done(old(Seen()))
      ensures count < budget && !spent ==> Seen() == stream
      ensures budget == 0 ==> Seen() == old(Seen()) && !spent
      ensures plenty ==> !spent
      ensures plenty && old(ring.head - ring.tail) <= MAX_DIRTY + 1 ==> ring.head - ring.tail <= MAX_DIRTY + 1
    {
      hide Sound, PartialOf, Delivered, Start, Pending, Done;
      var p, ended, incomplete := FRESH, true, false;
      var received: nat := 0;
      count, n, spent := 0, 0, false;
      Bounds();
      while count < budget && ended && !spent
        invariant ring.head <= |stream| && |ring.entries| == RING
        invariant Told() && n <= |ds| && stream == old(stream) + ds[..n]
        invariant spent == (ring.head - ring.tail == RING) && (!spent ==> Core())
        invariant count <= budget && count == Done(Seen()) - Done(old(Seen()))
        invariant received == 0 ==> !spent && Resting()
        invariant budget == 0 ==> Seen() == old(Seen()) && !spent
        invariant !ended && !spent ==> Seen() == stream && Holding(p)
        invariant ended && received > 0 && !spent ==> Between() && !incomplete
        invariant !ended && received > 0 && !spent ==>
                    if incomplete then Pending(Seen()) != [] && ring.entries[ring.head % RING] == EMPTY else Between()
        invariant plenty ==> !spent && (old(ring.head - ring.tail) <= MAX_DIRTY + 1 ==> ring.head - ring.tail <= MAX_DIRTY + 1)
        decreases budget - count, ended
      {
        var r, k;
        AllWireDrop(ds, n);
        p, ended, spent, r, k := PollOne(received == 0, ds[n..], plenty);
        Bounds();
        TakeMore(old(stream), ds, n, k);
        n, received := n + k, received + r;
        if r > 0 {
          incomplete := info.incomplete;
        }
        if ended {
          count := count + 1;
        }
      }
      if received > 0 && incomplete && !spent {
        Save(p);
      }
    }
  }
}
