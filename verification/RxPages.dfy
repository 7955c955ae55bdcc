/** Receive buffers cut from shared, reference-counted, DMA-mapped pages
    (`mac_alloc_pages`, `mac_set_buffer_data`, `mac_unmap_desc_data`,
    `mac_free_ring`). A ring has two such lanes, one for headers and one for
    payloads; their pages never mix. */
module RxPages {
  import opened Common

  const RING: nat := 4096          // MAC_RX_DESC_CNT
  const PAGE_SIZE: nat := 4096

  /** A page allocation. Numbers are given out in order of allocation; `frags`
      counts the packet fragments that refer to it. */
  datatype Page = Page(len: nat, refs: nat, mapped: bool, frags: nat)

  // struct mac_page_alloc: the page slices are being cut from.
  datatype Alloc = Alloc(page: nat, len: nat, off: nat)

  /** struct mac_buffer_data. `base` is the page the bus address belongs to;
      `pa` and `unmap` are the references the entry holds. */
  datatype Buf = Buf(pa: Option<nat>, unmap: Option<nat>, base: nat, off: nat, len: nat)

  const NONE: Buf := Buf(None, None, 0, 0, 0)

  datatype Lane = Lane(slice: nat, pa: Option<Alloc>, slots: seq<Buf>, pages: seq<Page>)
  {
    predicate Shaped() { |slots| == RING && slice > 0 }

    function B(i: nat): Buf
      requires Shaped()
    {
      slots[i % RING]
    }
  }

  // ------------------------------------------------------------- operations

  // get_page, put_page, dma_unmap_page
  function Get(pages: seq<Page>, p: nat): seq<Page>
    requires p < |pages|
  {
    pages[p := pages[p].(refs := pages[p].refs + 1)]
  }

  function Put(pages: seq<Page>, p: nat): seq<Page>
    requires p < |pages| && pages[p].refs > 0
  {
    pages[p := pages[p].(refs := pages[p].refs - 1)]
  }

  function Unmap(pages: seq<Page>, p: nat): seq<Page>
    requires p < |pages| && pages[p].mapped
  {
    pages[p := pages[p].(mapped := false)]
  }

  /** mac_alloc_pages, given how long a block the allocator and the DMA layer
      could provide. */
  function Refill(l: Lane, len: nat): Lane {
    l.(pa := Some(Alloc(|l.pages|, len, 0)), pages := l.pages + [Page(len, 1, true, 0)])
  }

  predicate CanCarve(l: Lane) {
    l.Shaped() && l.pa.Some? && l.pa.value.page < |l.pages|
  }

  /** mac_set_buffer_data for entry `i`. The slice that leaves no room for
      another one takes over the ring's own hold on the page. */
  function Carve(l: Lane, i: nat): Lane
    requires CanCarve(l)
  {
    var a := l.pa.value;
    var next := a.(off := a.off + l.slice);
    var last := next.off + l.slice > a.len;
    var b := Buf(Some(a.page), if last then Some(a.page) else None, a.page, a.off, l.slice);
    l.(pa := if last then None else Some(next), slots := l.slots[i % RING := b], pages := Get(l.pages, a.page))
  }

  predicate CanRelease(pages: seq<Page>, b: Buf) {
    && (b.pa.Some? ==> b.pa.value < |pages| && pages[b.pa.value].refs > 0)
    && (b.unmap.Some? ==>
          && b.unmap.value < |pages| && pages[b.unmap.value].mapped
          && pages[b.unmap.value].refs > if b.pa == b.unmap then 1 else 0)
  }

  // The page part of mac_unmap_desc_data.
  function ReleasePages(pages: seq<Page>, b: Buf): seq<Page>
    requires CanRelease(pages, b)
  {
    var afterPa := if b.pa.Some? then Put(pages, b.pa.value) else pages;
    if b.unmap.Some? then Put(Unmap(afterPa, b.unmap.value), b.unmap.value) else afterPa
  }

  function Release(l: Lane, i: nat): Lane
    requires l.Shaped() && CanRelease(l.pages, l.B(i))
  {
    l.(slots := l.slots[i % RING := NONE], pages := ReleasePages(l.pages, l.B(i)))
  }

  predicate CanTake(l: Lane, i: nat) {
    l.Shaped() && l.B(i).pa.Some? && l.B(i).pa.value < |l.pages|
  }

  /** skb_add_rx_frag: the entry's hold becomes the packet's. */
  function Take(l: Lane, i: nat): Lane
    requires CanTake(l, i)
  {
    var p := l.B(i).pa.value;
    l.(slots := l.slots[i % RING := l.B(i).(pa := None)], pages := l.pages[p := l.pages[p].(frags := l.pages[p].frags + 1)])
  }

  // A packet with a fragment on page `p` is freed.
  function DropFrag(l: Lane, p: nat): Lane
    requires p < |l.pages| && l.pages[p].frags > 0 && l.pages[p].refs > 0
  {
    l.(pages := Put(l.pages, p)[p := Put(l.pages, p)[p].(frags := l.pages[p].frags - 1)])
  }

  // ----------------------------------------------------- counting references

  function Holds(b: Buf, p: nat): nat {
    (if b.pa == Some(p) then 1 else 0) + (if b.unmap == Some(p) then 1 else 0)
  }

  function Owns(b: Buf, p: nat): nat {
    if b.unmap == Some(p) then 1 else 0
  }

  function AllHolds(slots: seq<Buf>, p: nat): nat {
    if slots == [] then 0 else AllHolds(slots[..|slots| - 1], p) + Holds(slots[|slots| - 1], p)
  }

  function AllOwns(slots: seq<Buf>, p: nat): nat {
    if slots == [] then 0 else AllOwns(slots[..|slots| - 1], p) + Owns(slots[|slots| - 1], p)
  }

  lemma {:induction false} CountUpdate(slots: seq<Buf>, i: nat, b: Buf, p: nat)
    requires i < |slots|
    ensures AllHolds(slots[i := b], p) == AllHolds(slots, p) - Holds(slots[i], p) + Holds(b, p)
    ensures AllOwns(slots[i := b], p) == AllOwns(slots, p) - Owns(slots[i], p) + Owns(b, p)
  {
    var n := |slots| - 1;
    if i < n {
      CountUpdate(slots[..n], i, b, p);
      assert slots[i := b][..n] == slots[..n][i := b];
    } else {
      assert slots[i := b][..n] == slots[..n];
    }
  }

  lemma {:induction false} CountNone(slots: seq<Buf>, p: nat)
    requires forall i :: 0 <= i < |slots| ==> slots[i] == NONE
    ensures AllHolds(slots, p) == 0 && AllOwns(slots, p) == 0
  {
    if slots != [] {
      CountNone(slots[..|slots| - 1], p);
    }
  }

  function RingHold(l: Lane, p: nat): nat {
    if l.pa.Some? && l.pa.value.page == p then 1 else 0
  }

  /** The books of one page: its references are the ring's own hold, the
      entries' holds and the packets'; it is mapped exactly while one of them
      is responsible for unmapping it, and never more than one is. */
  predicate PageBooks(l: Lane, p: nat)
    requires p < |l.pages|
  {
    && l.pages[p].refs == RingHold(l, p) + AllHolds(l.slots, p) + l.pages[p].frags
    && RingHold(l, p) + AllOwns(l.slots, p) <= 1
    && (l.pages[p].mapped <==> RingHold(l, p) + AllOwns(l.slots, p) == 1)
  }

  predicate Known(l: Lane, b: Buf) {
    && (b.pa.Some? ==> b.pa.value < |l.pages|)
    && (b.unmap.Some? ==> b.unmap.value < |l.pages|)
  }

  /** The accounting invariant; it says nothing about the order of entries. */
  ghost predicate Books(l: Lane) {
    && l.Shaped()
    && (l.pa.Some? ==> l.pa.value.page < |l.pages|)
    && (forall q :: 0 <= q < RING ==> Known(l, l.slots[q]))
    && (forall p :: 0 <= p < |l.pages| ==> PageBooks(l, p))
  }

  lemma {:induction false} CountAtLeast(slots: seq<Buf>, i: nat, p: nat)
    requires i < |slots|
    ensures AllHolds(slots, p) >= Holds(slots[i], p) && AllOwns(slots, p) >= Owns(slots[i], p)
  {
    CountUpdate(slots, i, NONE, p);
  }

  /** No entry is ever released twice, and no page unmapped twice: whatever an
      entry holds, the page still counts. */
  lemma ReleaseIsSafe(l: Lane, i: nat)
    requires Books(l)
    ensures CanRelease(l.pages, l.B(i))
  {
    var b := l.B(i);
    assert Known(l, b);
    if b.pa.Some? {
      assert PageBooks(l, b.pa.value);
      CountAtLeast(l.slots, i % RING, b.pa.value);
    }
    if b.unmap.Some? {
      assert PageBooks(l, b.unmap.value);
      CountAtLeast(l.slots, i % RING, b.unmap.value);
    }
  }

  lemma ReleaseBooks(l: Lane, i: nat)
    requires Books(l)
    ensures CanRelease(l.pages, l.B(i)) && Books(Release(l, i))
  {
    ReleaseIsSafe(l, i);
    var v := Release(l, i);
    forall p | 0 <= p < |v.pages| ensures PageBooks(v, p) {
      assert PageBooks(l, p);
      CountUpdate(l.slots, i % RING, NONE, p);
      CountAtLeast(l.slots, i % RING, p);
    }
    forall q | 0 <= q < RING ensures Known(v, v.slots[q]) {
      assert Known(l, l.slots[q]);
    }
  }

  lemma CarveBooks(l: Lane, i: nat)
    requires Books(l) && l.pa.Some? && l.B(i) == NONE
    ensures Books(Carve(l, i))
  {
    var v := Carve(l, i);
    forall p | 0 <= p < |v.pages| ensures PageBooks(v, p) {
      assert PageBooks(l, p);
      CountUpdate(l.slots, i % RING, v.B(i), p);
    }
    forall q | 0 <= q < RING ensures Known(v, v.slots[q]) {
      assert Known(l, l.slots[q]);
    }
  }

  lemma {:induction false} UnknownPage(slots: seq<Buf>, p: nat)
    requires forall q :: 0 <= q < |slots| ==> slots[q].pa != Some(p) && slots[q].unmap != Some(p)
    ensures AllHolds(slots, p) == 0 && AllOwns(slots, p) == 0
  {
    if slots != [] {
      UnknownPage(slots[..|slots| - 1], p);
    }
  }

  lemma RefillBooks(l: Lane, len: nat)
    requires Books(l) && l.pa.None?
    ensures Books(Refill(l, len))
  {
    var v := Refill(l, len);
    forall q | 0 <= q < RING ensures Known(v, v.slots[q]) {
      assert Known(l, l.slots[q]);
    }
    forall p | 0 <= p < |v.pages| ensures PageBooks(v, p) {
      if p < |l.pages| {
        assert PageBooks(l, p);
      } else {
        forall q | 0 <= q < RING ensures l.slots[q].pa != Some(p) && l.slots[q].unmap != Some(p) {
          assert Known(l, l.slots[q]);
        }
        UnknownPage(l.slots, p);
      }
    }
  }

  lemma TakeBooks(l: Lane, i: nat)
    requires Books(l) && CanTake(l, i)
    ensures Books(Take(l, i))
  {
    var v := Take(l, i);
    forall p | 0 <= p < |v.pages| ensures PageBooks(v, p) {
      assert PageBooks(l, p);
      CountUpdate(l.slots, i % RING, v.B(i), p);
    }
    forall q | 0 <= q < RING ensures Known(v, v.slots[q]) {
      assert Known(l, l.slots[q]);
    }
  }

  lemma DropFragBooks(l: Lane, p: nat)
    requires Books(l) && p < |l.pages| && l.pages[p].frags > 0
    ensures l.pages[p].refs > 0 && Books(DropFrag(l, p))
  {
    assert PageBooks(l, p);
    var v := DropFrag(l, p);
    forall q | 0 <= q < |v.pages| ensures PageBooks(v, q) {
      assert PageBooks(l, q);
    }
    forall q | 0 <= q < RING ensures Known(v, v.slots[q]) {
      assert Known(l, l.slots[q]);
    }
  }

  // ------------------------------------------------------------ mac_free_ring

  lemma ReleaseEffect(l: Lane, i: nat)
    requires Books(l) && i < RING
    ensures CanRelease(l.pages, l.B(i)) && Books(Release(l, i))
    ensures var v := Release(l, i);
      && |v.pages| == |l.pages| && v.pa == l.pa && v.slice == l.slice && v.slots == l.slots[i := NONE]
      && forall p :: 0 <= p < |l.pages| ==> v.pages[p].frags == l.pages[p].frags
  {
    ReleaseBooks(l, i);
  }

  // Releases physical entries 0 .. n - 1, in that order.
  ghost function FreeSlots(l: Lane, n: nat): (v: Lane)
    requires Books(l) && n <= RING
    ensures Books(v) && |v.pages| == |l.pages| && v.pa == l.pa && v.slice == l.slice
    ensures forall q :: 0 <= q < RING ==> v.slots[q] == if q < n then NONE else l.slots[q]
    ensures forall p :: 0 <= p < |l.pages| ==> v.pages[p].frags == l.pages[p].frags
  {
    if n == 0 then l
    else
      var v := FreeSlots(l, n - 1);
      ReleaseEffect(v, n - 1);
      assert v.Shaped();
      hide Books, ReleasePages, CanRelease;
      Release(v, n - 1)
  }

  predicate CanFreePage(l: Lane) {
    l.pa.Some? ==> l.pa.value.page < |l.pages| && l.pages[l.pa.value.page].mapped && l.pages[l.pa.value.page].refs > 0
  }

  function FreePage(l: Lane): Lane
    requires CanFreePage(l)
  {
    if l.pa.None? then l
    else l.(pages := Put(Unmap(l.pages, l.pa.value.page), l.pa.value.page), pa := None)
  }

  /** Tearing a ring down, in whatever order its entries were carved and with
      whatever packets still alive, ends with every page unmapped and held by
      the packets alone: nothing leaks and nothing is put twice. */
  lemma FreeRing(l: Lane)
    requires Books(l)
    ensures CanFreePage(FreeSlots(l, RING))
    ensures var v := FreePage(FreeSlots(l, RING));
      && Books(v) && |v.pages| == |l.pages|
      && forall p :: 0 <= p < |v.pages| ==>
           !v.pages[p].mapped && v.pages[p].refs == v.pages[p].frags == l.pages[p].frags
  {
    var u := FreeSlots(l, RING);
    if u.pa.Some? {
      assert PageBooks(u, u.pa.value.page);
    }
    var v := FreePage(u);
    forall p | 0 <= p < |v.pages|
      ensures PageBooks(v, p) && !v.pages[p].mapped && v.pages[p].refs == v.pages[p].frags == l.pages[p].frags
    {
      assert PageBooks(u, p);
      CountNone(u.slots, p);
    }
    forall q | 0 <= q < RING ensures Known(v, v.slots[q]) {
      assert Known(u, u.slots[q]);
    }
  }
}
