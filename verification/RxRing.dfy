/** The receive ring while the device fills it and the driver reads and
    refreshes it: why no buffer the device may write to, or the driver has yet
    to read, is ever on a page that has been unmapped. */
module RxRing {
  import opened Common
  import opened RxPages

  const MAX_DIRTY: nat := 512      // MAC_RX_DESC_MAX_DIRTY
  const HDR_SLICE: nat := 512      // MAC_SKB_ALLOC_SIZE

  // --------------------------------------------- slices in ring order

  predicate AllocOk(l: Lane) {
    l.pa.Some? ==>
      var a := l.pa.value;
      a.page < |l.pages| && a.len == l.pages[a.page].len && a.off + l.slice <= a.len
  }

  // An entry's slice lies inside its page, and the entry is to unmap the page
  // exactly if no further slice fits.
  predicate InPage(l: Lane, i: nat)
    requires l.Shaped()
  {
    var b := l.B(i);
    && b.base < |l.pages| && b.len == l.slice && b.off + b.len <= l.pages[b.base].len
    && (b.pa.Some? ==> b.pa.value == b.base)
    && (b.unmap.Some? ==> b.unmap.value == b.base)
    && (b.unmap.Some? <==> b.off + 2 * b.len > l.pages[b.base].len)
  }

  // The next entry continues the page, or starts a newer one if this entry
  // was the page's last.
  predicate Linked(l: Lane, i: nat)
    requires l.Shaped()
  {
    var b, n := l.B(i), l.B(i + 1);
    if b.unmap.None? then n.base == b.base && n.off == b.off + l.slice
    else n.base > b.base && n.off == 0
  }

  // So does the page slices are being cut from.
  predicate Continues(l: Lane, i: nat)
    requires l.Shaped()
  {
    var b := l.B(i);
    if b.unmap.None? then l.pa.Some? && l.pa.value.page == b.base && l.pa.value.off == b.off + l.slice
    else l.pa.Some? ==> l.pa.value.page > b.base && l.pa.value.off == 0
  }

  /** Entries [lo, hi) were carved one after the other; the rest of the ring is
      blank. */
  ghost predicate Chain(l: Lane, lo: nat, hi: nat) {
    && l.Shaped() && AllocOk(l) && lo <= hi <= lo + RING
    && (forall i: nat :: lo <= i < hi ==> InPage(l, i))
    && (forall i: nat :: lo <= i < hi - 1 ==> Linked(l, i))
    && (lo < hi ==> Continues(l, hi - 1))
    && (forall i: nat {:trigger l.B(i)} :: hi <= i < lo + RING ==> l.B(i) == NONE)
  }

  /** Page numbers never go down along the ring. */
  lemma {:induction false} PagesAscend(l: Lane, lo: nat, hi: nat, i: nat, j: nat)
    requires Chain(l, lo, hi) && lo <= i <= j < hi
    ensures l.B(i).base <= l.B(j).base
    ensures i < j && l.B(i).unmap.Some? ==> l.B(i).base < l.B(j).base
    decreases j - i
  {
    if i < j {
      assert Linked(l, i);
      PagesAscend(l, lo, hi, i + 1, j);
    }
  }

  /** Slices of one page never overlap. */
  lemma {:induction false} SlicesDisjoint(l: Lane, lo: nat, hi: nat, i: nat, j: nat)
    requires Chain(l, lo, hi) && lo <= i < j < hi && l.B(i).base == l.B(j).base
    ensures l.B(i).off + l.B(i).len <= l.B(j).off
    decreases j - i
  {
    assert InPage(l, i);
    assert Linked(l, i);
    PagesAscend(l, lo, hi, i, j);
    if i + 1 < j {
      PagesAscend(l, lo, hi, i, i + 1);
      PagesAscend(l, lo, hi, i + 1, j);
      SlicesDisjoint(l, lo, hi, i + 1, j);
      assert InPage(l, i + 1);
    }
  }

  /** Every live entry's page is still mapped: the entry that will unmap it,
      or the ring itself, comes no earlier in ring order. */
  lemma {:induction false} LiveIsMapped(l: Lane, lo: nat, hi: nat, i: nat)
    requires Chain(l, lo, hi) && Books(l) && lo <= i < hi
    ensures l.B(i).base < |l.pages| && l.pages[l.B(i).base].mapped && l.pages[l.B(i).base].refs > 0
    decreases hi - i
  {
    var p := l.B(i).base;
    assert InPage(l, i);
    assert PageBooks(l, p);
    if l.B(i).unmap.Some? {
      CountAtLeast(l.slots, i % RING, p);
      assert AllHolds(l.slots, p) >= 1;
    } else if i + 1 < hi {
      assert Linked(l, i);
      LiveIsMapped(l, lo, hi, i + 1);
    }
  }

  // What one write to the slots leaves alone.
  ghost predicate SameBut(l: Lane, v: Lane, lo: nat, j: nat)
    requires l.Shaped() && v.Shaped()
  {
    forall i: nat {:trigger v.B(i)} :: lo <= i < lo + RING && i != j ==> v.B(i) == l.B(i)
  }

  lemma OneSlot(l: Lane, v: Lane, lo: nat, j: nat)
    requires l.Shaped() && v.Shaped() && lo <= j < lo + RING
    requires v.slots == l.slots[j % RING := v.slots[j % RING]]
    ensures SameBut(l, v, lo, j)
  {
  }

  ghost predicate SameSizes(l: Lane, v: Lane) {
    |l.pages| <= |v.pages| && forall p :: 0 <= p < |l.pages| ==> v.pages[p].len == l.pages[p].len
  }

  lemma ReleaseChain(l: Lane, lo: nat, hi: nat)
    requires Chain(l, lo, hi) && lo < hi && CanRelease(l.pages, l.B(lo))
    ensures Chain(Release(l, lo), lo + 1, hi)
  {
    var v := Release(l, lo);
    OneSlot(l, v, lo, lo);
    assert SameSizes(l, v);
    forall i: nat | lo + 1 <= i < hi ensures InPage(v, i) && v.B(i) == l.B(i) {
      assert InPage(l, i);
      assert v.B(i) == l.B(i);
    }
    forall i: nat | lo + 1 <= i < hi - 1 ensures Linked(v, i) {
      assert Linked(l, i);
      assert v.B(i) == l.B(i) && v.B(i + 1) == l.B(i + 1);
    }
    forall i: nat | hi <= i < lo + 1 + RING ensures v.B(i) == NONE {
      if i < lo + RING {
        assert v.B(i) == l.B(i);
      } else {
        assert i % RING == lo % RING;
      }
    }
  }

  // Releasing an entry that is already blank changes nothing.
  lemma ReleaseBlank(l: Lane, i: nat)
    requires l.Shaped() && l.B(i) == NONE
    ensures CanRelease(l.pages, l.B(i)) && Release(l, i) == l
  {
    assert l.slots[i % RING := NONE] == l.slots;
  }

  lemma RefillChain(l: Lane, lo: nat, hi: nat, len: nat)
    requires Chain(l, lo, hi) && Books(l) && l.pa.None? && l.slice <= len
    ensures Chain(Refill(l, len), lo, hi)
  {
    var v := Refill(l, len);
    forall i: nat | lo <= i < hi ensures InPage(v, i) {
      assert InPage(l, i);
    }
    forall i: nat | lo <= i < hi - 1 ensures Linked(v, i) {
      assert Linked(l, i);
    }
    if lo < hi {
      assert InPage(l, hi - 1);
    }
    forall i: nat | hi <= i < lo + RING ensures v.B(i) == NONE {
      assert l.B(i) == NONE;
    }
  }

  lemma CarveChain(l: Lane, lo: nat, hi: nat)
    requires Chain(l, lo, hi) && CanCarve(l) && hi < lo + RING
    ensures Chain(Carve(l, hi), lo, hi + 1)
    ensures Carve(l, hi).B(hi).pa.Some?
  {
    var v := Carve(l, hi);
    OneSlot(l, v, lo, hi);
    forall i: nat | lo <= i < hi + 1 ensures InPage(v, i) {
      if i < hi {
        assert InPage(l, i);
        assert v.B(i) == l.B(i);
      }
    }
    forall i: nat | lo <= i < hi ensures Linked(v, i) {
      assert v.B(i) == l.B(i);
      if i < hi - 1 {
        assert Linked(l, i);
        assert v.B(i + 1) == l.B(i + 1);
      }
    }
    forall i: nat | hi + 1 <= i < lo + RING ensures v.B(i) == NONE {
      assert v.B(i) == l.B(i);
    }
  }

  lemma TakeChain(l: Lane, lo: nat, hi: nat, i: nat)
    requires Chain(l, lo, hi) && lo <= i < hi && CanTake(l, i)
    ensures Chain(Take(l, i), lo, hi)
    ensures SameBut(l, Take(l, i), lo, i)
  {
    var v := Take(l, i);
    OneSlot(l, v, lo, i);
    forall k: nat | lo <= k < hi ensures InPage(v, k) {
      assert InPage(l, k);
      assert k != i ==> v.B(k) == l.B(k);
    }
    forall k: nat | lo <= k < hi - 1 ensures Linked(v, k) {
      assert Linked(l, k);
      assert k != i ==> v.B(k) == l.B(k);
      assert k + 1 != i ==> v.B(k + 1) == l.B(k + 1);
    }
    assert hi - 1 != i ==> v.B(hi - 1) == l.B(hi - 1);
    forall k: nat | hi <= k < lo + RING ensures v.B(k) == NONE {
      assert v.B(k) == l.B(k);
    }
  }

  lemma DropChain(l: Lane, lo: nat, hi: nat, p: nat)
    requires Chain(l, lo, hi) && p < |l.pages| && l.pages[p].frags > 0 && l.pages[p].refs > 0
    ensures Chain(DropFrag(l, p), lo, hi)
  {
    var v := DropFrag(l, p);
    forall i: nat | lo <= i < hi ensures InPage(v, i) {
      assert InPage(l, i);
    }
    forall i: nat | lo <= i < hi - 1 ensures Linked(v, i) {
      assert Linked(l, i);
    }
    forall i: nat | hi <= i < lo + RING ensures v.B(i) == NONE {
      assert l.B(i) == NONE;
    }
  }
}
