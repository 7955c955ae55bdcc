/** What the loop of `mac_tx_poll` adds up to: the slots reclaimed one after the
    other, their packets, bytes, mappings and frees. */
module TxReclaim {
  import opened TxSlots
  import opened TxWire
  import P = TxProtocol

  datatype Totals = Totals(ring: P.Ring, count: nat, packets: nat, bytes: nat, unmaps: seq<Mapping>, frees: seq<nat>)

  predicate More(r: P.Ring) {
    r.Shaped() && r.dirty != r.cur && !r.D(r.dirty).own
  }

  function PollNext(s: Totals): Totals
    requires More(s.ring)
  {
    var d, slot := s.ring.D(s.ring.dirty), s.ring.S(s.ring.dirty);
    Totals(P.ReclaimOne(s.ring), s.count + 1,
           if d.mark.ld then s.packets + slot.packets else s.packets,
           if d.mark.ld then s.bytes + slot.bytes else s.bytes,
           s.unmaps + Unmaps(slot), s.frees + Frees(slot))
  }

  function PollLoop(s: Totals, fuel: nat): Totals
    decreases fuel
  {
    if fuel == 0 || !More(s.ring) then s else PollLoop(PollNext(s), fuel - 1)
  }

  function PollResult(r: P.Ring): Totals {
    PollLoop(Totals(r, 0, 0, 0, [], []), P.MAX_PROC)
  }

  lemma PollStops(s: Totals, fuel: nat)
    requires fuel == 0 || !More(s.ring)
    ensures PollLoop(s, fuel) == s
  {
  }

  lemma PollOn(s: Totals, fuel: nat)
    requires fuel > 0 && More(s.ring)
    ensures PollLoop(s, fuel) == PollLoop(PollNext(s), fuel - 1)
  {
  }

  lemma {:induction false} CountGrows(s: Totals, fuel: nat)
    ensures PollLoop(s, fuel).count >= s.count
    decreases fuel
  {
    if fuel > 0 && More(s.ring) {
      CountGrows(PollNext(s), fuel - 1);
    }
  }

  lemma ReclaimedNothing(s: Totals, fuel: nat)
    ensures PollLoop(s, fuel).count == s.count ==> PollLoop(s, fuel) == s
  {
    if fuel > 0 && More(s.ring) {
      CountGrows(PollNext(s), fuel - 1);
    }
  }
}
