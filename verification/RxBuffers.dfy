/** The receive ring's buffers, updated in place: page allocation
    (`mac_alloc_pages`), carving (`mac_set_buffer_data`, `mac_map_rx_buffer`),
    release (`mac_unmap_desc_data`, `mac_free_ring`), and the ring indices,
    which are 32 bits wide and wrap. Every method is one of the operations or
    steps whose runs `RxProtocol` reasons about. */
module RxBuffers {
  import opened Common
  import opened RxPages
  import opened RxRing
  import P = RxProtocol

  const BUF_ORDER: nat := 2        // PAGE_ALLOC_COSTLY_ORDER - 1

  function Pow2(n: nat): (p: nat)
    ensures p > 0
  {
    if n == 0 then 1 else 2 * Pow2(n - 1)
  }

  /** What the kernel would answer to one mac_alloc_pages: for each order
      whether such a block is free, and whether it can be DMA-mapped. */
  datatype Offer = Offer(free: seq<bool>, mappable: bool)

  predicate Bounded(o: Offer, order: nat) { |o.free| == order + 1 }

  // The largest free order below `n`.
  function Largest(free: seq<bool>, n: nat): (r: Option<nat>)
    requires n <= |free|
    ensures r.Some? ==> r.value < n && free[r.value] && forall k :: r.value < k < n ==> !free[k]
    ensures r.None? ==> forall k :: 0 <= k < n ==> !free[k]
  {
    if n == 0 then None else if free[n - 1] then Some(n - 1) else Largest(free, n - 1)
  }

  /** The length of the block an offer amounts to. */
  function Block(o: Offer): (len: Option<nat>)
    ensures len.Some? ==> PAGE_SIZE <= len.value
  {
    var order := Largest(o.free, |o.free|);
    if o.mappable && order.Some? then Some(PAGE_SIZE * Pow2(order.value)) else None
  }

  /** In bytes: a header page is always 4096 long; a payload block is 16384, 8192
      or 4096, as 2, 1 or 0 is the largest order free. */
  lemma BlockSizes(o: Offer)
    ensures Bounded(o, 0) ==> (Block(o) == if o.mappable && o.free[0] then Some(4096) else None)
    ensures Bounded(o, 2) ==> (Block(o) ==
              if !o.mappable then None
              else if o.free[2] then Some(16384) else if o.free[1] then Some(8192) else if o.free[0] then Some(4096) else None)
  {
    assert Pow2(1) == 2 && Pow2(2) == 4;
    if Bounded(o, 2) {
      assert Largest(o.free, 3).Some? <==> o.free[0] || o.free[1] || o.free[2];
    }
  }

  /** One lane of a receive ring: the page slices are cut from
      (`rx_hdr_pa` or `rx_buf_pa`), the entries' slices, and the kernel's
      books of the pages involved. */
  class Slices {
    const slice: nat
    const slots: array<Buf>
    var pa: Option<Alloc>
    var pages: seq<Page>

    ghost predicate Shaped()
      reads this
    {
      slots.Length == RING && slice > 0
    }

    ghost function View(): (l: Lane)
      reads this, slots
      ensures Shaped() ==> l.Shaped()
    {
      Lane(slice, pa, slots[..], pages)
    }

    constructor (slice: nat)
      requires slice > 0
      ensures Shaped() && fresh(slots) && this.slice == slice
      ensures View() == P.Build(slice, seq(RING, i => PAGE_SIZE), 0)
    {
      this.slice := slice;
      slots := new Buf[RING](i => NONE);
      pa, pages := None, [];
    }

    /** mac_alloc_pages: the block is the largest one free, no order above the
        one asked for; a block that cannot be mapped is put back. */
    method AllocPages(order: nat, offer: Offer) returns (ok: bool)
      requires Bounded(offer, order) && pa.None?
      modifies this
      ensures ok <==> Block(offer).Some?
      ensures View() == if ok then Refill(old(View()), Block(offer).value) else old(View())
      ensures ok ==> pa == Some(Alloc(|old(pages)|, pages[|old(pages)|].len, 0))
      ensures ok && order == 0 ==> pa.value.len == 4096
      ensures ok && order == 2 ==> pa.value.len == if offer.free[2] then 16384 else if offer.free[1] then 8192 else 4096
    {
      BlockSizes(offer);
      var o: int := order;
      while o >= 0 && !offer.free[o]
        invariant -1 <= o <= order
        invariant Largest(offer.free, order + 1) == Largest(offer.free, o + 1)
      {
        o := o - 1;
      }
      if o < 0 || !offer.mappable {
        return false;
      }
      pa, pages := Some(Alloc(|pages|, PAGE_SIZE * Pow2(o), 0)), pages + [Page(PAGE_SIZE * Pow2(o), 1, true, 0)];
      return true;
    }

    // mac_set_buffer_data for entry `i`
    method SetBufferData(i: nat)
      requires CanCarve(View()) && i < RING
      modifies this, slots
      ensures View() == Carve(old(View()), i)
    {
      var a := pa.value;
      pages := Get(pages, a.page);
      var b := Buf(Some(a.page), None, a.page, a.off, slice);
      var next := a.(off := a.off + slice);
      if next.off + slice > a.len {
        b := b.(unmap := Some(a.page));
        pa := None;
      } else {
        pa := Some(next);
      }
      slots[i] := b;
    }

    // This lane's part of mac_unmap_desc_data for entry `i`.
    method UnmapDescData(i: nat)
      requires Shaped() && i < RING && CanRelease(pages, slots[i])
      modifies this, slots
      ensures View() == Release(old(View()), i)
    {
      var b := slots[i];
      if b.pa.Some? {
        pages := Put(pages, b.pa.value);
      }
      if b.unmap.Some? {
        pages := Unmap(pages, b.unmap.value);
        pages := Put(pages, b.unmap.value);
      }
      slots[i] := NONE;
    }

    // skb_add_rx_frag with entry `i`'s payload
    method HandOver(i: nat)
      requires CanTake(View(), i) && i < RING
      modifies this, slots
      ensures View() == Take(old(View()), i)
    {
      var p := slots[i].pa.value;
      pages := pages[p := pages[p].(frags := pages[p].frags + 1)];
      slots[i] := slots[i].(pa := None);
    }

    method FreeEntries()
      requires Books(View())
      modifies this, slots
      ensures Shaped() && View() == FreeSlots(old(View()), RING)
    {
      ghost var was := View();
      assert Shaped();
      hide Books, CanRelease, Release;
      for i := 0 to RING
        invariant Shaped() && View() == FreeSlots(was, i)
      {
        ReleaseIsSafe(View(), i);
        assert View().B(i) == slots[i];
        UnmapDescData(i);
      }
    }

    // mac_free_ring's treatment of the page in use
    method DropPage()
      requires Shaped() && CanFreePage(View())
      modifies this
      ensures View() == FreePage(old(View()))
    {
      if pa.Some? {
        pages := Unmap(pages, pa.value.page);
        pages := Put(pages, pa.value.page);
        pa := None;
      }
    }

    /** mac_free_ring: every entry, whatever state the ring is in, then the
        page in use. Nothing stays mapped, and only packets keep pages. */
    method Free()
      requires Books(View())
      modifies this, slots
      ensures Books(View()) && pa.None? && |pages| == |old(pages)|
      ensures forall i :: 0 <= i < RING ==> slots[i] == NONE
      ensures forall p :: 0 <= p < |pages| ==>
                !pages[p].mapped && pages[p].refs == pages[p].frags == old(pages[p].frags)
    {
      ghost var was := View();
      FreeEntries();
      hide Books;
      FreeRing(was);
      ghost var freed := View();
      DropPage();
      forall i | 0 <= i < RING ensures slots[i] == NONE {
        assert freed.slots[i] == NONE && View().slots[i] == freed.slots[i];
      }
    }
  }

  // What mac_map_rx_buffer is offered for one entry.
  datatype Offers = Offers(hdr: Offer, buf: Offer)

  predicate Sized(o: Offers) { Bounded(o.hdr, 0) && Bounded(o.buf, BUF_ORDER) }

  predicate Plenty(o: Offers) { Block(o.hdr).Some? && Block(o.buf).Some? }

  /** mac_alloc_pages, if the lane has no page, for both lanes; then both
      slices of entry `i`. A header page obtained stays even if no payload
      page can be had. */
  method MapRxBuffer(hdr: Slices, buf: Slices, i: nat, offers: Offers) returns (ok: bool)
    requires hdr != buf && hdr.slots != buf.slots && Sized(offers) && i < RING
    requires P.WithPage(hdr.View(), Block(offers.hdr)).Some? ==> CanCarve(P.WithPage(hdr.View(), Block(offers.hdr)).value)
    requires P.WithPage(buf.View(), Block(offers.buf)).Some? ==> CanCarve(P.WithPage(buf.View(), Block(offers.buf)).value)
    modifies hdr, hdr.slots, buf, buf.slots
    ensures var h, b := P.WithPage(old(hdr.View()), Block(offers.hdr)), P.WithPage(old(buf.View()), Block(offers.buf));
      && ok == (h.Some? && b.Some?)
      && hdr.View() == (if ok then Carve(h.value, i) else if h.Some? then h.value else old(hdr.View()))
      && buf.View() == (if ok then Carve(b.value, i) else old(buf.View()))
  {
    ok := true;
    if hdr.pa.None? {
      ok := hdr.AllocPages(0, offers.hdr);
    }
    if !ok {
      return;
    }
    if buf.pa.None? {
      ok := buf.AllocPages(BUF_ORDER, offers.buf);
    }
    if !ok {
      return;
    }
    hdr.SetBufferData(i);
    buf.SetBufferData(i);
  }
}
